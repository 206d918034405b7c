/** From a client connection to an upstream writer: read the head, decide the framing,
    rewrite, push the over-read bytes back and relay the body up to its end. */
module HttpExchange {
  import opened Text
  import opened HeadLines
  import opened HttpHeads
  import opened HttpRewrite
  import opened HttpProxyHead
  import opened ConnStreams
  import opened Relay
  import Chunked

  // ---------------------------------------------------------------- reading a head

  datatype ReadError = TooLarge | Closed | Rejected(cause: HeadError)

  /** What reading a head from the stream `s` must give, however it is fragmented:
      the length of the head and what it parses to. */
  function HeadOutcome(s: string, maxSize: nat): Result<(nat, Parsed), ReadError> {
    match HeadEnd(s)
    case Some(n) =>
      if n > maxSize then Err(TooLarge)
      else (match Parse(s[..n])
            case Ok(p) => Ok((n, p))
            case Err(e) => Err(Rejected(e)))
    case None => Err(if |s| >= maxSize then TooLarge else Closed)
  }

  lemma PartialHead(buffered: string, contents: string)
    ensures HeadEnd(buffered).Some? ==> HeadEnd(buffered + contents) == HeadEnd(buffered)
    ensures HeadEnd(buffered).None? && HeadEnd(buffered + contents).Some? ==> HeadEnd(buffered + contents).value > |buffered|
    ensures HeadEnd(buffered + contents).Some? ==> HeadEnd(buffered + contents).value <= |buffered| + |contents|
  {
    hide HeadEnd;
    var s := buffered + contents;
    assert s[..|buffered|] == buffered;
    HeadEndOfPrefix(s, |buffered|);
    HeadEndIsFirst(s);
  }

  lemma OutcomeFound(s: string, maxSize: nat, n: nat, head: string, parsed: Result<Parsed, HeadError>)
    requires HeadEnd(s) == Some(n) && n <= maxSize && n <= |s| && head == s[..n] && parsed == Parse(head)
    ensures HeadOutcome(s, maxSize) == match parsed case Ok(p) => Ok((n, p)) case Err(e) => Err(Rejected(e))
  {
  }

  /** `read_http_head_inner`. */
  method ReadHttpHead(client: ConnStream, maxSize: nat) returns (r: Result<HttpHead, ReadError>)
    requires client.Valid()
    modifies client
    ensures client.Valid()
    ensures var outcome := HeadOutcome(old(client.Contents()), maxSize);
            if outcome.Err? then r == Err(outcome.error)
            else r.Ok? && fresh(r.value) && r.value.Valid() && r.value.headLen == outcome.value.0 && r.value.Facts() == outcome.value.1
    ensures r.Ok? ==> r.value.buffered + client.Contents() == old(client.Contents()) && |r.value.buffered| <= maxSize
    ensures r.Ok? ==> !r.value.stripAuthorization
  {
    hide HeadEnd, Parse, ConnStream.Contents, HttpHead.Valid;
    var buffered := "";
    ghost var s := client.Contents();
    while true
      invariant client.Valid() && buffered + client.Contents() == s && |buffered| <= maxSize
      invariant HeadEnd(s).Some? ==> HeadEnd(s).value <= |s|
      decreases |client.Contents()|
    {
      PartialHead(buffered, client.Contents());
      var end := FindHeadEnd(buffered);
      if end.Some? {
        var headLen := end.value;
        HeadWithin(buffered, headLen);
        var parsed := ParseHead(buffered[..headLen]);
        assert buffered[..headLen] == s[..headLen];
        OutcomeFound(s, maxSize, headLen, buffered[..headLen], parsed);
        if parsed.Err? { return Err(Rejected(parsed.error)); }
        var head := new HttpHead(parsed.value, buffered, headLen);
        return Ok(head);
      }
      if |buffered| >= maxSize { return Err(TooLarge); }
      var room := maxSize - |buffered|;
      var got := client.Read(if room < 4096 then room else 4096);
      if got == [] {
        assert s == buffered;
        return Err(Closed);
      }
      buffered := buffered + got;
    }
  }

  lemma HeadWithin(b: string, n: nat)
    requires HeadEnd(b) == Some(n)
    ensures n <= |b|
  {
  }

  // ---------------------------------------------------------------- one exchange

  datatype Ending = HeadNotSent | NoAnswer | Relayed(end: PipeEnd, flushed: bool)

  /** The part of `stream` that may be relayed after the head: everything once the
      upstream has switched protocols, else the body. */
  function Relayable(stream: string, framing: Framing, tunnel: bool): string {
    if tunnel then stream else stream[..BodyLength(framing, stream)]
  }

  /** How a relayed body can be when its reader has come to a clean end: whole, or, with a
      length announced, as much of it as a client sent that then closed. */
  ghost predicate EndedCleanly(framing: Framing, body: string, rest: string) {
    Complete(framing, body) || (framing.Length? && |body| < framing.length && rest == "")
  }

  lemma Truncated(out: string, prefix: string)
    ensures (out + prefix)[..|out + prefix| - |prefix|] == out
  {
  }

  /** Puts the body bytes already read back in front of the client and sends the rewritten
      head alone. */
  method SendHead(head: HttpHead, client: ConnStream, upstream: BufferingWriter, hop: Hop) returns (ok: bool)
    requires head.Valid() && client.Valid() && upstream.queued == ""
    modifies client, upstream
    ensures client.Valid() && client.Contents() == head.BodyPrefix() + old(client.Contents())
    ensures upstream.keepOpen == old(upstream.keepOpen) && upstream.closed == old(upstream.closed)
    ensures var out := Rewritten(head.Head(), head.hostRaw, head.stripAuthorization, hop);
            && old(upstream.Accepted()) <= upstream.Accepted() <= old(upstream.Accepted()) + out
            && (ok ==> upstream.Accepted() == old(upstream.Accepted()) + out && upstream.queued == "")
  {
    hide ConnStream.Contents, BufferingWriter.Accepted, Rewritten, HttpHead.Valid;
    var prefix := head.BodyPrefix();
    ghost var out := Rewritten(head.Head(), head.hostRaw, head.stripAuthorization, hop);
    ghost var accepted0 := upstream.Accepted();
    var rewritten := RewriteForProxy(head.Head(), head.hostRaw, head.stripAuthorization, hop, prefix);
    Truncated(out, prefix);
    rewritten := rewritten[..|rewritten| - |prefix|];
    client.Unread(prefix);
    ok := upstream.WriteAll(rewritten);
    if !ok {
      ghost var k :| 0 <= k <= |rewritten| && upstream.Accepted() == accepted0 + rewritten[..k];
      assert accepted0 + out == upstream.Accepted() + out[k..];
      return;
    }
    ok := upstream.Flush();
  }

  /** How a relay of `stream` that began with `sent` accepted has ended: at most the body
      followed, all of it unless the connection or the writer failed; a clean end leaves the
      rest unread, and without a tunnel it tells that the body was whole or the client
      closed early; a malformed end tells that it was not whole. */
  ghost predicate RelayedAs(framing: Framing, tunnel: bool, stream: string, sent: string, end: PipeEnd, rest: string, accepted: string) {
    var body := Relayable(stream, framing, tunnel);
    && sent <= accepted <= sent + body
    && (end == EndOfInput || end == Malformed ==> accepted == sent + body)
    && (end == EndOfInput ==> stream == body + rest)
    && (end == EndOfInput && !tunnel ==> EndedCleanly(framing, body, rest))
    && (end == Malformed ==> framing.Chunked? && !Complete(framing, body))
  }

  /** The last part of `exchange`: the body, or everything once protocols were switched. */
  method RelayBody(framing: Framing, tunnel: bool, client: ConnStream, upstream: BufferingWriter) returns (end: PipeEnd, flushed: bool)
    requires client.Valid() && upstream.queued == "" && !upstream.keepOpen
    modifies client, upstream
    ensures client.Valid()
    ensures RelayedAs(framing, tunnel, old(client.Contents()), old(upstream.Accepted()), end, client.Contents(), upstream.Accepted())
    ensures (flushed ==> upstream.queued == "") && (!tunnel ==> upstream.closed == old(upstream.closed))
  {
    hide ConnStream.Contents, BufferingWriter.Accepted, BodyLength, BodyReader.Ahead, Stopped, EndedCleanly, Complete;
    var reader;
    if tunnel {
      reader := new BodyReader.Whole(client);
    } else {
      reader := new BodyReader(client, framing);
      upstream.keepOpen := true;
    }
    ghost var start := Start(reader.mode, reader.Ahead(), client.Contents(), upstream.Accepted());
    var parks;
    end, flushed, parks := Pipe(reader, upstream);
    PipeEnded(start, end, client.Contents(), upstream.Accepted());
    if !tunnel {
      BodyEnded(framing, start, end, client.Contents(), upstream.Accepted());
    }
  }

  /** `exchange`. The upstream's answer to an upgrade request is an input: none, or
      whether it switches protocols. */
  method Exchange(head: HttpHead, framing: Framing, client: ConnStream, upstream: BufferingWriter, hop: Hop, answer: Option<bool>)
      returns (r: Ending)
    requires head.Valid() && client.Valid() && upstream.queued == "" && !upstream.keepOpen
    modifies client, upstream
    ensures client.Valid()
    ensures var tunnel := UpgradeRequested(AllLines(head.Head())) && answer == Some(true);
            var stream := head.BodyPrefix() + old(client.Contents());
            var out := Rewritten(head.Head(), head.hostRaw, head.stripAuthorization, hop);
            var relayed := Relayable(stream, framing, tunnel);
            && old(upstream.Accepted()) <= upstream.Accepted() <= old(upstream.Accepted()) + out + relayed
            && (r.Relayed? ==>
                  RelayedAs(framing, tunnel, stream, old(upstream.Accepted()) + out, r.end, client.Contents(), upstream.Accepted()))
            && (r.Relayed? && r.flushed ==> upstream.queued == "")
            && (!tunnel ==> upstream.closed == old(upstream.closed))
  {
    hide ConnStream.Contents, BufferingWriter.Accepted, UpgradeRequested, AllLines, Rewritten, HttpHead.Valid, RelayedAs, Relayable;
    var upgrade := UpgradeRequested(AllLines(head.Head()));
    ghost var out := Rewritten(head.Head(), head.hostRaw, head.stripAuthorization, hop);
    ghost var accepted0 := upstream.Accepted();
    var ok := SendHead(head, client, upstream, hop);
    ghost var relayed := Relayable(client.Contents(), framing, upgrade && answer == Some(true));
    Further(accepted0, upstream.Accepted(), out, relayed);
    if !ok { return HeadNotSent; }
    if upgrade && answer.None? { return NoAnswer; }
    ghost var stream := client.Contents();
    var end, flushed := RelayBody(framing, upgrade && answer == Some(true), client, upstream);
    RelayBounds(framing, upgrade && answer == Some(true), stream, accepted0 + out, end, client.Contents(), upstream.Accepted());
    r := Relayed(end, flushed);
  }

  lemma RelayBounds(framing: Framing, tunnel: bool, stream: string, sent: string, end: PipeEnd, rest: string, accepted: string)
    requires RelayedAs(framing, tunnel, stream, sent, end, rest, accepted)
    ensures sent <= accepted <= sent + Relayable(stream, framing, tunnel)
  {
  }

  lemma PipeEnded(start: Start, end: PipeEnd, contents: string, accepted: string)
    requires Stopped(start, end, contents, accepted)
    ensures start.accepted <= accepted <= start.accepted + start.ahead
    ensures end == EndOfInput || end == Malformed ==> accepted == start.accepted + start.ahead
    ensures end == EndOfInput ==> start.contents == start.ahead + contents
    ensures end == Malformed ==> start.mode.Framed?
  {
  }

  /** Why a reader bounded by a framing stops says whether the body was whole. */
  lemma BodyEnded(framing: Framing, start: Start, end: PipeEnd, contents: string, accepted: string)
    requires Stopped(start, end, contents, accepted)
    requires start.mode == match framing case Length(n) => Take(n) case Chunked => Framed(Chunked.START)
    requires start.ahead == start.contents[..BodyLength(framing, start.contents)]
    ensures end == EndOfInput ==> EndedCleanly(framing, start.ahead, contents)
    ensures end == Malformed ==> framing.Chunked? && !Complete(framing, start.ahead)
  {
    hide Chunked.Run, Chunked.Accepts;
    if end == EndOfInput && framing.Length? {
      assert |start.ahead| == BodyLength(framing, start.contents);
      assert |start.contents| == |start.ahead| + |contents|;
    }
  }

  lemma Further(start: string, now: string, out: string, relayed: string)
    requires start <= now <= start + out
    ensures now <= start + out + relayed
  {
  }

  // ---------------------------------------------------------------- one request

  datatype Served = NoHead(cause: ReadError) | BadFraming(why: FramingError) | Exchanged(ending: Ending)

  /** The head that is forwarded when the route strips a path prefix. */
  function RoutedHead(head: string, prefix: Option<string>): string {
    match prefix
    case Some(p) => StrippedHead(head, p)
    case None => head
  }

  /** The connection becomes a tunnel: an upgrade was asked for and accepted. */
  predicate Tunnels(head: string, answer: Option<bool>) {
    UpgradeRequested(AllLines(head)) && answer == Some(true)
  }

  /** What `run` may send upstream for the client stream `s`: the length of the head
      it read, the rewritten head, and what may follow it. */
  function Request(s: string, maxSize: nat, prefix: Option<string>, consume: bool, hop: Hop, answer: Option<bool>):
      (r: Result<(nat, string, string), Served>)
    ensures r.Ok? ==> r.value.0 <= |s|
  {
    match HeadOutcome(s, maxSize)
    case Err(e) => Err(NoHead(e))
    case Ok((n, parsed)) =>
      if n > |s| then Err(NoHead(Closed))
      else match BodyFraming(Headers(s[..n]))
        case Err(e) => Err(BadFraming(e))
        case Ok(framing) =>
          var head := RoutedHead(s[..n], prefix);
          var tunnel := Tunnels(s[..n], answer);
          Ok((n, Rewritten(head, parsed.hostRaw, consume, hop), Relayable(s[n..], framing, tunnel)))
  }

  lemma PrefixSplit(buffered: string, contents: string, s: string, n: nat)
    requires buffered + contents == s && n <= |buffered|
    ensures buffered[..n] == s[..n] && buffered[n..] + contents == s[n..]
  {
  }

  lemma ValidHead(head: HttpHead)
    requires head.Valid()
    ensures head.headLen <= |head.buffered|
    ensures head.Head() == head.buffered[..head.headLen] && head.BodyPrefix() == head.buffered[head.headLen..]
  {
    hide Accepted, Words, Lines;
    HeadWithin(head.buffered, head.headLen);
  }

  /** Reads a head and applies to it what the route asks for; `consume` tells whether
      basic authentication consumed the credentials. */
  method PrepareHead(client: ConnStream, maxSize: nat, prefix: Option<string>, consume: bool) returns (r: Result<HttpHead, ReadError>)
    requires client.Valid()
    modifies client
    ensures client.Valid()
    ensures var s := old(client.Contents());
            match HeadOutcome(s, maxSize)
            case Err(e) => r == Err(e)
            case Ok((n, parsed)) =>
              && n <= |s| && r.Ok? && fresh(r.value) && r.value.Valid()
              && r.value.Head() == RoutedHead(s[..n], prefix)
              && r.value.hostRaw == parsed.hostRaw && r.value.stripAuthorization == consume
              && Headers(r.value.Head()) == Headers(s[..n]) && AllLines(r.value.Head()) == AllLines(s[..n])
              && r.value.BodyPrefix() + client.Contents() == s[n..]
  {
    hide HeadOutcome, Headers, AllLines, StrippedHead, ConnStream.Contents, HttpHead.Valid, HttpHead.Head, HttpHead.BodyPrefix;
    ghost var s := client.Contents();
    r := ReadHttpHead(client, maxSize);
    if r.Ok? {
      var head := r.value;
      ValidHead(head);
      PrefixSplit(head.buffered, client.Contents(), s, head.headLen);
      if prefix.Some? { head.StripPathPrefix(prefix.value); }
      if consume { head.ConsumeAuthorization(); }
    }
  }

  /** The request path of `run` from the connection to the upstream. For every
      fragmentation of the client's bytes, what reaches the upstream writer is at most
      the rewritten head and the body, and on a clean end exactly that, with the rest
      still unread. */
  method ForwardRequest(client: ConnStream, maxSize: nat, prefix: Option<string>, consume: bool,
                        upstream: BufferingWriter, hop: Hop, answer: Option<bool>)
      returns (r: Served)
    requires client.Valid() && upstream.queued == "" && !upstream.keepOpen
    modifies client, upstream
    ensures client.Valid()
    ensures var request := Request(old(client.Contents()), maxSize, prefix, consume, hop, answer);
            match request
            case Err(e) => r == e && upstream.Accepted() == old(upstream.Accepted())
            case Ok((n, out, body)) =>
              && r.Exchanged? && n <= |old(client.Contents())| && BodyFraming(Headers(old(client.Contents())[..n])).Ok?
              && old(upstream.Accepted()) <= upstream.Accepted() <= old(upstream.Accepted()) + out + body
              && (r.ending == Relayed(EndOfInput, true) ==>
                    && upstream.delivered == old(upstream.Accepted()) + out + body
                    && old(client.Contents())[n..] == body + client.Contents()
                    && (!Tunnels(old(client.Contents())[..n], answer) ==>
                          EndedCleanly(BodyFraming(Headers(old(client.Contents())[..n])).value, body, client.Contents())))
              && (r.ending.Relayed? && r.ending.end == Malformed ==>
                    && BodyFraming(Headers(old(client.Contents())[..n])) == Ok(Framing.Chunked) && !Complete(Framing.Chunked, body))
  {
    hide HeadOutcome, BodyFraming, Headers, StrippedHead, ConnStream.Contents, UpgradeRequested, AllLines, Rewritten, Relayable,
      BufferingWriter.Accepted, EndedCleanly, Complete, HttpHead.Valid, HttpHead.Head, HttpHead.BodyPrefix;
    var read := PrepareHead(client, maxSize, prefix, consume);
    if read.Err? { return NoHead(read.error); }
    var head := read.value;
    var framing := FramingOf(head.Head());
    if framing.Err? { return BadFraming(framing.error); }
    var ending := Exchange(head, framing.value, client, upstream, hop, answer);
    if ending == Relayed(EndOfInput, true) { AllDelivered(upstream); }
    r := Exchanged(ending);
  }

  lemma AllDelivered(w: BufferingWriter)
    requires w.queued == ""
    ensures w.delivered == w.Accepted()
  {
  }

  // ---------------------------------------------------------------- what that means on the wire

  /** The stream starts with a whole body. */
  ghost predicate StartsComplete(framing: Framing, stream: string) {
    exists k :: 0 <= k <= |stream| && Complete(framing, stream[..k])
  }

  /** The relayed part of a stream that starts with a complete body is that body. */
  lemma BodyFound(framing: Framing, body: string, rest: string)
    requires Complete(framing, body)
    ensures Relayable(body + rest, framing, false) == body
  {
    hide Chunked.Step, Chunked.ValidMessage, Chunked.Encode, Chunked.Run;
    if framing.Chunked? {
      var m := Chunked.Decode(body);
      Chunked.EncodedEnds(m, rest);
    }
    assert (body + rest)[..|body|] == body;
  }

  /** What is relayed is a whole body exactly when the stream starts with one. */
  lemma BodyIsWhole(framing: Framing, stream: string)
    ensures Complete(framing, Relayable(stream, framing, false)) <==> StartsComplete(framing, stream)
  {
    hide Complete, Relayable;
    var body := Relayable(stream, framing, false);
    assert body == stream[..|body|] && |body| <= |stream| by { RelayablePrefix(framing, stream); }
    if StartsComplete(framing, stream) {
      var k :| 0 <= k <= |stream| && Complete(framing, stream[..k]);
      assert stream == stream[..k] + stream[k..];
      BodyFound(framing, stream[..k], stream[k..]);
    }
  }

  lemma RelayablePrefix(framing: Framing, stream: string)
    ensures var body := Relayable(stream, framing, false); |body| <= |stream| && body == stream[..|body|]
  {
  }

  /** Exact forwarding: of a head, a whole body and anything after it, the head is rewritten,
      the body follows, and the rest stays behind. */
  lemma ForwardsExactly(head: string, body: string, rest: string, framing: Framing, maxSize: nat, prefix: Option<string>, consume: bool,
                        hop: Hop, answer: Option<bool>)
    requires HeadEnd(head) == Some(|head|) && |head| <= maxSize && Parse(head).Ok?
    requires BodyFraming(Headers(head)) == Ok(framing) && Complete(framing, body) && !Tunnels(head, answer)
    ensures Request(head + body + rest, maxSize, prefix, consume, hop, answer) ==
            Ok((|head|, Rewritten(RoutedHead(head, prefix), Parse(head).value.hostRaw, consume, hop), body))
  {
    hide HeadEnd, Headers, BodyFraming, Rewritten, Complete, Parse, RoutedHead, Tunnels, Relayable;
    var s := head + body + rest;
    PartialHead(head, body + rest);
    assert s == head + (body + rest);
    assert s[..|head|] == head && s[|head|..] == body + rest;
    BodyFound(framing, body, rest);
  }

  /** A head that was read whole is accepted, and so is the one routed on. */
  lemma RoutedAccepted(s: string, n: nat, prefix: Option<string>)
    requires HeadEnd(s) == Some(n) && n <= |s| && Parse(s[..n]).Ok?
    ensures var routed := RoutedHead(s[..n], prefix);
            && HttpRewrite.Accepted(routed, Parse(s[..n]).value.hostRaw)
            && Headers(routed) == Headers(s[..n]) && AllLines(routed) == AllLines(s[..n])
  {
    hide HeadEnd, Headers, AllLines, Words, StrippedHead, RequestLine, Parse, AcceptedHeaders, HostValue, StrippedTarget, RebuiltLine, Find;
    ParsedHeadersAccepted(s[..n]);
    if prefix.Some? {
      HeadEndOfPrefix(s, n);
      ParsedRequest(s[..n]);
      assert s[..n][..n] == s[..n];
      RebuiltHead(s[..n], n, prefix.value);
    }
  }

  /** Every request that is forwarded without switching protocols reaches the upstream
      as one message. Whatever follows, its head ends where it was rewritten to end. It
      carries the framing the proxy relayed by, exactly when the client's Connection field
      left the framing field alone, and a whole body, exactly when the client sent one. An
      upstream that reads by that framing then takes the body and nothing more. */
  lemma ForwardedAsOneMessage(s: string, maxSize: nat, prefix: Option<string>, consume: bool, hop: Hop, answer: Option<bool>, more: string)
    requires LfFreeHop(hop) && Request(s, maxSize, prefix, consume, hop, answer).Ok?
    requires !Tunnels(s[..Request(s, maxSize, prefix, consume, hop, answer).value.0], answer)
    ensures var (n, out, body) := Request(s, maxSize, prefix, consume, hop, answer).value;
            n <= |s| && BodyFraming(Headers(s[..n])).Ok? &&
            var framing := BodyFraming(Headers(s[..n])).value;
            && HeadEnd(out + (body + more)) == Some(|out|)
            && body <= s[n..]
            && (BodyFraming(Headers(out)) == Ok(framing) <==> KeepsFraming(framing, PolicyFor(s[..n], consume, hop)))
            && (Complete(framing, body) <==> StartsComplete(framing, s[n..]))
            && (Complete(framing, body) ==> Relayable(body + more, framing, false) == body)
  {
    hide HeadEnd, Headers, BodyFraming, Rewritten, HttpRewrite.Accepted, LfFreeHop, KeepsFraming, RoutedHead, Parse, Complete,
      HopByHop, UpgradeRequested, AllLines, StartsComplete, Relayable, Tunnels;
    var (n, out, body) := Request(s, maxSize, prefix, consume, hop, answer).value;
    RoutedAccepted(s, n, prefix);
    var routed := RoutedHead(s[..n], prefix);
    var framing := BodyFraming(Headers(s[..n])).value;
    RewriteFraming(routed, Parse(s[..n]).value.hostRaw, consume, hop, body + more);
    BodyIsWhole(framing, s[n..]);
    RelayablePrefix(framing, s[n..]);
    if Complete(framing, body) {
      BodyFound(framing, body, more);
    }
  }
}
