/** Requests that `parse_head` takes and that lose something on the way to the upstream. */
module HttpFailures {
  import opened Text
  import opened HeadLines
  import opened HttpHeads
  import opened HttpRewrite

  lemma ContentLengthReads(value: string)
    requires value != [] && !IsSpace(value[0]) && !IsSpace(value[|value| - 1])
    ensures Is(Read(Pushed("Content-Length", value)), "content-length", value)
  {
    PushedReads("Content-Length", "content-length", value);
    TrimAfterSpace(value);
  }

  lemma SmuggledReads(host: string, token: string, length: string)
    requires host == "a" && token == "content-length" && length == "5"
    ensures var ls := ReadAll([Pushed("Host", host), Pushed("Connection", token), Pushed("Content-Length", length)]);
            |ls| == 3 && Is(ls[0], "host", host) && Is(ls[1], "connection", token) && Is(ls[2], "content-length", length)
  {
    hide Read, Is, Pushed, Trim;
    HostReads(host);
    TrimAfterSpace(host);
    ConnectionReads(token);
    ContentLengthReads(length);
  }

  /** The client's Connection field names what stops here. */
  lemma OptionStops(ls: seq<Line>, token: string)
    requires |ls| >= 2 && Is(ls[0], "host", "a") && Is(ls[1], "connection", token)
    requires token == "content-length" || token == "host"
    ensures token in HopByHop(ls)
  {
    hide UpgradeRequested, Split, Trim, Lower;
    SplitSingle(token, ',');
    TrimSolid(token);
    LowerSame(token);
    assert token != "close" && token != "upgrade" && token != "" by { assert |token| == 14 || |token| == 4; }
    assert ls[0].field.value.name != "connection" && HeaderValue(ls, "connection") == HeaderValue(ls[1..], "connection");
    assert Tokens([token], UpgradeRequested(ls)) == {token} by { assert [token][1..] == []; }
  }

  lemma LowerSame(s: string)
    requires forall i :: 0 <= i < |s| ==> !('A' <= s[i] <= 'Z')
    ensures Lower(s) == s
  {
  }

  lemma SmuggledHost(ls: seq<Line>, token: string, length: string)
    requires |ls| == 3 && Is(ls[0], "host", "a") && Is(ls[1], "connection", token) && Is(ls[2], "content-length", length)
    ensures AcceptedHeaders(ls) && HostValue(ls) == Some("a")
  {
    assert ls[1..] == [ls[1], ls[2]];
    CountNone(ls[1..], "host");
  }

  lemma BareHost(ls: seq<Line>, token: string)
    requires |ls| == 2 && Is(ls[0], "host", "a") && Is(ls[1], "connection", token)
    ensures AcceptedHeaders(ls) && HostValue(ls) == Some("a")
  {
    assert ls[1..] == [ls[1]];
    CountNone(ls[1..], "host");
  }

  lemma SmuggledLength(ls: seq<Line>, token: string, length: string)
    requires |ls| == 3 && Is(ls[0], "host", "a") && Is(ls[1], "connection", token) && Is(ls[2], "content-length", length)
    requires ParseUnsigned(length, 10, U64) == Some(5)
    ensures BodyFraming(ls) == Ok(Length(5))
  {
    hide FramingScan, ParseUnsigned;
    ScanStep(ls, UNSEEN);
    ScanStep(ls[1..], UNSEEN);
    ScanStep(ls[2..], UNSEEN);
    assert ls[1..][0] == ls[1] && ls[1..][1..] == ls[2..] && ls[2..][0] == ls[2] && ls[2..][1..] == [];
    EmptyScan(Seen(Some(5), None, true));
  }

  lemma EmptyScan(st: Seen)
    ensures FramingScan([], st) == Ok(st)
  {
  }

  lemma FiveParses(length: string)
    requires length == "5"
    ensures ParseUnsigned(length, 10, U64) == Some(5)
  {
    assert length[..0] == [];
    assert Digits(length, 10) == Some(5);
  }

  lemma PostWords(line: string)
    requires line == "POST / HTTP/1.1"
    ensures RequestParts(line).Ok?
  {
    hide Words, IsWord;
    PostIsWords();
    assert line == "POST" + " " + "/" + " " + "HTTP/1.1";
    ThreeWords("POST", "/", "HTTP/1.1");
  }

  lemma PostIsWords()
    ensures IsWord("POST") && IsWord("/") && IsWord("HTTP/1.1") && "HTTP/1." <= "HTTP/1.1"
  {
  }

  lemma PlainHost(host: string)
    requires host == "a"
    ensures HostPort(host).Ok?
  {
    assert ':' !in host;
    assert !IsSpace(host[0]);
  }

  /** Such a head is parsed. */
  lemma Parses(head: string, host: string)
    requires RequestLine(head) == "POST / HTTP/1.1" && AcceptedHeaders(Headers(head))
    requires HostValue(Headers(head)) == Some(host) && host == "a"
    ensures Parse(head).Ok? && Parse(head).value.hostRaw == host
  {
    PostWords(RequestLine(head));
    PlainHost(host);
    ScanAccepts(Headers(head), START);
    hide RequestLine, Headers, HostPort, RequestParts, ScanHeaders, HostValue;
  }

  /** What is read from the printed lines. */
  lemma PrintedHead(texts: seq<string>)
    requires LfFreeLines(texts) && forall i :: 0 <= i < |texts| ==> texts[i] != []
    ensures var head := Render(["POST / HTTP/1.1"] + texts);
            && HeadEnd(head) == Some(|head|) && RequestLine(head) == "POST / HTTP/1.1"
            && Headers(head) == ReadAll(texts) && AllLines(head) == ReadAll(texts + ["", ""])
  {
    hide Render, HeadEnd, Lines, Read, RequestLine, HeaderLines;
    var all := ["POST / HTTP/1.1"] + texts;
    assert LfFree("POST / HTTP/1.1");
    RenderRoundTrip(all, "");
    LinesOfRender(all);
    assert Render(all) + "" == Render(all);
    assert all[1..] == texts && (all + ["", ""])[1..] == texts + ["", ""];
  }

  /** Framing is not preserved for every request: one that lists Content-Length among its
      Connection options is parsed, and relayed with five bytes of body, but reaches the
      upstream without that length. */
  lemma FramingLostByConnectionOption(hop: Hop, host: string, token: string, length: string)
    requires LfFreeHop(hop) && host == "a" && token == "content-length" && length == "5"
    ensures var head := Render(["POST / HTTP/1.1"] + [Pushed("Host", host), Pushed("Connection", token), Pushed("Content-Length", length)]);
            && HeadEnd(head) == Some(|head|) && Parse(head).Ok? && Parse(head).value.hostRaw == host
            && BodyFraming(Headers(head)) == Ok(Length(5))
            && BodyFraming(Headers(Rewritten(head, host, false, hop))) != Ok(Length(5))
  {
    hide Render, HeadEnd, BodyFraming, Rewritten, Read, LfFreeHop, Lines, HopByHop, UpgradeRequested, Pushed,
      HostValue, AcceptedHeaders, Is, Parse, RequestLine, Headers, AllLines;
    var texts := [Pushed("Host", host), Pushed("Connection", token), Pushed("Content-Length", length)];
    var head := Render(["POST / HTTP/1.1"] + texts);
    PushedLfFree("Host", host);
    PushedLfFree("Connection", token);
    PushedLfFree("Content-Length", length);
    PrintedHead(texts);
    SmuggledReads(host, token, length);
    var lines := ReadAll(texts + ["", ""]);
    assert lines[0] == ReadAll(texts)[0] && lines[1] == ReadAll(texts)[1] && lines[2] == ReadAll(texts)[2];
    SmuggledHost(ReadAll(texts), token, length);
    Parses(head, host);
    FiveParses(length);
    SmuggledLength(ReadAll(texts), token, length);
    OptionStops(lines, token);
    RewriteFraming(head, host, false, hop, "");
  }

  lemma BareReads(host: string, token: string)
    requires host == "a" && token == "host"
    ensures var ls := ReadAll([Pushed("Host", host), Pushed("Connection", token)]);
            |ls| == 2 && Is(ls[0], "host", host) && Is(ls[1], "connection", token)
  {
    hide Read, Is, Pushed, Trim;
    HostReads(host);
    TrimAfterSpace(host);
    ConnectionReads(token);
  }

  /** Host does not always get through either: a request that lists it among its Connection
      options is parsed, but where the route names no upstream host, what is forwarded has
      no Host and would be refused by the same parser. */
  lemma HostLostByConnectionOption(hop: Hop, host: string, token: string)
    requires LfFreeHop(hop) && hop.upstreamHost.None? && host == "a" && token == "host"
    ensures var head := Render(["POST / HTTP/1.1"] + [Pushed("Host", host), Pushed("Connection", token)]);
            var out := Rewritten(head, host, false, hop);
            && HeadEnd(head) == Some(|head|) && Parse(head).Ok? && Parse(head).value.hostRaw == host
            && Count(Headers(out), "host") == 0 && Parse(out).Err?
  {
    hide Render, HeadEnd, Rewritten, Read, LfFreeHop, Lines, HopByHop, UpgradeRequested, Pushed,
      HostValue, AcceptedHeaders, Is, Parse, RequestLine, Headers, AllLines, Count;
    var texts := [Pushed("Host", host), Pushed("Connection", token)];
    var head := Render(["POST / HTTP/1.1"] + texts);
    PushedLfFree("Host", host);
    PushedLfFree("Connection", token);
    PrintedHead(texts);
    BareReads(host, token);
    var lines := ReadAll(texts + ["", ""]);
    assert lines[0] == ReadAll(texts)[0] && lines[1] == ReadAll(texts)[1];
    BareHost(ReadAll(texts), token);
    Parses(head, host);
    OptionStops(lines, token);
    RewriteHost(head, host, false, hop);
    var out := Rewritten(head, host, false, hop);
    if Parse(out).Ok? {
      ParsedHeadersAccepted(out);
    }
  }
}
