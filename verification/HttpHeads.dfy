/** Request heads: what is accepted, how the body is framed, and the rewrite that
    forwards a head to the next hop. Functions here work on the lines of a head;
    `HttpProxyHead` holds the loops and the object that carries a parsed head. */
module HttpHeads {
  import opened Text
  import opened HeadLines

  datatype HeadError =
    | MalformedRequestLine | UnsupportedVersion | UnsupportedTarget
    | FoldedHost | MalformedLine | MultipleHosts | MissingHost
    | EmptyHost | InvalidHost | InvalidPort

  // ---------------------------------------------------------------- lines

  /** A header line and how the scanners read it: whether it continues the line
      before, and the lower-cased name and trimmed value around its first colon. */
  datatype Line = Line(text: string, fold: bool, field: Option<Field>)

  datatype Field = Field(name: string, value: string, raw: string)

  function Read(text: string): (l: Line)
    ensures l.text == text
  {
    Line(text, text != [] && (text[0] == ' ' || text[0] == '\t'),
         match SplitOnce(text, ':')
         case Some((name, value)) => Some(Field(Lower(Trim(name)), Trim(value), value))
         case None => None)
  }

  function ReadAll(texts: seq<string>): (ls: seq<Line>)
    ensures |ls| == |texts|
    ensures forall i :: 0 <= i < |ls| ==> ls[i] == Read(texts[i])
  {
    seq(|texts|, i requires 0 <= i < |texts| => Read(texts[i]))
  }

  function Texts(ls: seq<Line>): (texts: seq<string>)
    ensures |texts| == |ls|
    ensures forall i :: 0 <= i < |ls| ==> texts[i] == ls[i].text
  {
    seq(|ls|, i requires 0 <= i < |ls| => ls[i].text)
  }

  /** The header fields of a head, up to its blank line. */
  function Headers(head: string): (ls: seq<Line>)
    ensures forall i :: 0 <= i < |ls| ==> ls[i] == Read(ls[i].text)
  {
    ReadAll(HeaderLines(head))
  }

  /** All lines after the request line, as `header_value` walks them. */
  function AllLines(head: string): seq<Line> {
    ReadAll(Lines(head)[1..])
  }

  /** `line` starts a field with this (lower-case) name. */
  predicate Names(line: Line, name: string) {
    !line.fold && line.field.Some? && line.field.value.name == name
  }

  function Count(ls: seq<Line>, name: string): nat {
    if ls == [] then 0 else (if Names(ls[0], name) then 1 else 0) + Count(ls[1..], name)
  }

  lemma {:induction false} CountAppend(a: seq<Line>, b: seq<Line>, name: string)
    ensures Count(a + b, name) == Count(a, name) + Count(b, name)
  {
    if a == [] {
      assert a + b == b;
    } else {
      assert (a + b)[1..] == a[1..] + b;
      CountAppend(a[1..], b, name);
    }
  }

  /** `header_value`: the first line with this name, continuation lines included. */
  function HeaderValue(lines: seq<Line>, name: string): Option<string> {
    if lines == [] then None
    else if lines[0].field.Some? && lines[0].field.value.name == name then Some(lines[0].field.value.value)
    else HeaderValue(lines[1..], name)
  }

  // ---------------------------------------------------------------- request line

  function RequestParts(line: string): Result<(string, string), HeadError> {
    var ws := Words(line);
    assert |ws| >= 2 ==> ws[1] in ws;
    if |ws| < 2 || |ws| > 3 then Err(MalformedRequestLine)
    else if |ws| < 3 || !("HTTP/1." <= ws[2]) then Err(UnsupportedVersion)
    else if ws[1][0] != '/' then Err(UnsupportedTarget)
    else Ok((ws[0], ws[1]))
  }

  function CheckedHost(host: string, port: Option<string>): Result<(string, Option<nat>), HeadError> {
    if host == [] || exists i :: 0 <= i < |host| && IsSpace(host[i]) then Err(InvalidHost)
    else match port
      case None => Ok((host, None))
      case Some(text) =>
        match ParseUnsigned(text, 10, U16)
        case Some(n) => Ok((host, Some(n)))
        case None => Err(InvalidPort)
  }

  /** `split_host_port`: host, and the port when the client sent one. */
  function HostPort(value: string): Result<(string, Option<nat>), HeadError> {
    if value == [] then Err(EmptyHost)
    else if value[0] == '[' then
      match SplitOnce(value[1..], ']')
      case None => Err(InvalidHost)
      case Some((host, rest)) => CheckedHost(host, if rest != [] && rest[0] == ':' then Some(rest[1..]) else None)
    else
      match RSplitOnce(value, ':')
      case Some((host, port)) => CheckedHost(host, Some(port))
      case None => CheckedHost(value, None)
  }

  // ---------------------------------------------------------------- header scan

  /** What `parse_head` collects from the header lines. */
  datatype Scan = Scan(host: Option<string>, authorization: Option<string>, tokens: seq<string>, lastWasHost: bool)

  const START: Scan := Scan(None, None, [], false)

  function NonEmptyTrimmed(parts: seq<string>): seq<string> {
    if parts == [] then []
    else (if Trim(parts[0]) == [] then [] else [Trim(parts[0])]) + NonEmptyTrimmed(parts[1..])
  }

  function ScanLine(line: Line, st: Scan): Result<Scan, HeadError> {
    if line.fold then if st.lastWasHost then Err(FoldedHost) else Ok(st)
    else match line.field
      case None => Err(MalformedLine)
      case Some(Field(name, value, raw)) =>
        if name == "host" then
          if st.host.Some? then Err(MultipleHosts) else Ok(st.(host := Some(value), lastWasHost := true))
        else if name == "authorization" then
          Ok(st.(authorization := Some(value), lastWasHost := false))
        else if name == "x-tlsproxy-rid" then
          Ok(st.(tokens := st.tokens + NonEmptyTrimmed(Split(raw, ',')), lastWasHost := false))
        else Ok(st.(lastWasHost := false))
  }

  function ScanHeaders(ls: seq<Line>, st: Scan): Result<Scan, HeadError> {
    if ls == [] then Ok(st)
    else match ScanLine(ls[0], st)
      case Err(e) => Err(e)
      case Ok(next) => ScanHeaders(ls[1..], next)
  }

  datatype Parsed = Parsed(
    requestMethod: string, target: string, host: string, port: Option<nat>, hostRaw: string,
    authorization: Option<string>, loopTokens: seq<string>)

  /** `parse_head` on the text of a head. */
  function Parse(head: string): Result<Parsed, HeadError> {
    match RequestParts(RequestLine(head))
    case Err(e) => Err(e)
    case Ok((requestMethod, target)) =>
      match ScanHeaders(Headers(head), START)
      case Err(e) => Err(e)
      case Ok(st) =>
        if st.host.None? then Err(MissingHost)
        else match HostPort(st.host.value)
          case Err(e) => Err(e)
          case Ok((host, port)) =>
            Ok(Parsed(requestMethod, target, host, port, st.host.value, st.authorization, st.tokens))
  }

  // ---- what acceptance means, without the scan

  ghost predicate EveryLineIsAField(ls: seq<Line>) {
    forall i :: 0 <= i < |ls| && !ls[i].fold ==> ls[i].field.Some?
  }

  ghost predicate NoFoldedHost(ls: seq<Line>) {
    forall i :: 0 < i < |ls| && ls[i].fold ==> !Names(ls[i - 1], "host")
  }

  function HostValue(ls: seq<Line>): Option<string> {
    if ls == [] then None
    else if Names(ls[0], "host") then Some(ls[0].field.value.value)
    else HostValue(ls[1..])
  }

  lemma NoFoldedHostSplit(ls: seq<Line>)
    requires ls != []
    ensures NoFoldedHost(ls) <==> NoFoldedHost(ls[1..]) && !(|ls| > 1 && ls[1].fold && Names(ls[0], "host"))
  {
    var tail := ls[1..];
    if NoFoldedHost(ls) {
      forall i | 0 < i < |tail| && tail[i].fold ensures !Names(tail[i - 1], "host") {
        assert tail[i] == ls[i + 1] && tail[i - 1] == ls[i];
      }
    }
    if NoFoldedHost(tail) && !(|ls| > 1 && ls[1].fold && Names(ls[0], "host")) {
      forall i | 0 < i < |ls| && ls[i].fold ensures !Names(ls[i - 1], "host") {
        if i > 1 { assert tail[i - 1] == ls[i] && tail[i - 2] == ls[i - 1]; }
      }
    }
  }

  lemma EveryLineSplit(ls: seq<Line>)
    requires ls != []
    ensures EveryLineIsAField(ls) <==> EveryLineIsAField(ls[1..]) && (ls[0].fold || ls[0].field.Some?)
  {
    var tail := ls[1..];
    assert forall i :: 0 <= i < |tail| ==> tail[i] == ls[i + 1];
    assert forall i :: 0 < i < |ls| ==> ls[i] == tail[i - 1];
  }

  /** The header scan accepts exactly the heads whose lines are fields or
      continuations, whose Host field is not continued, and which name Host at
      most once; it then reports that field's value. */
  lemma {:induction false} ScanAccepts(ls: seq<Line>, st: Scan)
    ensures ScanHeaders(ls, st).Ok? <==>
      && EveryLineIsAField(ls) && NoFoldedHost(ls)
      && !(st.lastWasHost && ls != [] && ls[0].fold)
      && Count(ls, "host") <= (if st.host.Some? then 0 else 1)
    ensures ScanHeaders(ls, st).Ok? ==>
      ScanHeaders(ls, st).value.host == if st.host.Some? then st.host else HostValue(ls)
  {
    if ls != [] {
      NoFoldedHostSplit(ls);
      EveryLineSplit(ls);
      var step := ScanLine(ls[0], st);
      if step.Ok? {
        ScanAccepts(ls[1..], step.value);
      }
    }
  }

  ghost predicate AcceptedHeaders(ls: seq<Line>) {
    EveryLineIsAField(ls) && NoFoldedHost(ls) && Count(ls, "host") == 1
  }

  lemma {:induction false} HostValueCounts(ls: seq<Line>)
    ensures HostValue(ls).Some? <==> Count(ls, "host") >= 1
  {
    if ls != [] { HostValueCounts(ls[1..]); }
  }

  lemma ParsedHeadersAccepted(head: string)
    requires Parse(head).Ok?
    ensures AcceptedHeaders(Headers(head))
    ensures HostValue(Headers(head)) == Some(Parse(head).value.hostRaw)
  {
    ScanAccepts(Headers(head), START);
    HostValueCounts(Headers(head));
  }

  // ---------------------------------------------------------------- body framing

  datatype Framing = Length(length: nat) | Chunked

  datatype FramingError =
    | FoldedFraming | InvalidContentLength | DuplicateContentLength
    | MultipleTransferEncodings | LengthAndEncoding | UnsupportedEncoding

  /** The accumulators of `body_framing`. */
  datatype Seen = Seen(length: Option<nat>, encoding: Option<string>, last: bool)

  const UNSEEN: Seen := Seen(None, None, false)

  function FramingLine(line: Line, st: Seen): Result<Seen, FramingError> {
    if line.fold then if st.last then Err(FoldedFraming) else Ok(st)
    else match line.field
      case None => Ok(st)
      case Some(Field(name, value, _)) =>
        if name == "content-length" then
          match ParseUnsigned(value, 10, U64)
          case None => Err(InvalidContentLength)
          case Some(n) =>
            if st.length.Some? then Err(DuplicateContentLength) else Ok(Seen(Some(n), st.encoding, true))
        else if name == "transfer-encoding" then
          if st.encoding.Some? then Err(MultipleTransferEncodings)
          else Ok(Seen(st.length, Some(Lower(value)), true))
        else Ok(st.(last := false))
  }

  function FramingScan(ls: seq<Line>, st: Seen): Result<Seen, FramingError> {
    if ls == [] then Ok(st)
    else match FramingLine(ls[0], st)
      case Err(e) => Err(e)
      case Ok(next) => FramingScan(ls[1..], next)
  }

  function Decide(seen: Seen): Result<Framing, FramingError> {
    match seen.encoding
    case Some(encoding) =>
      if seen.length.Some? then Err(LengthAndEncoding)
      else if encoding != "chunked" then Err(UnsupportedEncoding)
      else Ok(Chunked)
    case None => Ok(Length(if seen.length.Some? then seen.length.value else 0))
  }

  /** `body_framing` on the header lines. */
  function BodyFraming(ls: seq<Line>): Result<Framing, FramingError> {
    match FramingScan(ls, UNSEEN)
    case Ok(seen) => Decide(seen)
    case Err(e) => Err(e)
  }

  // ---------------------------------------------------------------- rewrite

  predicate UpgradeRequested(lines: seq<Line>) {
    && (match HeaderValue(lines, "connection")
        case Some(value) => exists token :: token in Split(value, ',') && Lower(Trim(token)) == "upgrade"
        case None => false)
    && HeaderValue(lines, "upgrade").Some?
  }

  function Tokens(parts: seq<string>, upgrade: bool): set<string> {
    if parts == [] then {}
    else
      var token := Lower(Trim(parts[0]));
      (if token == [] || token == "close" || (token == "upgrade" && upgrade) then {} else {token})
      + Tokens(parts[1..], upgrade)
  }

  const HOP_BY_HOP: set<string> := {"keep-alive", "te", "trailer", "proxy-authorization", "proxy-connection"}

  /** The fields that stop at this hop: the fixed ones and those the client's own
      Connection field names. `lines` are all lines after the request line. */
  function HopByHop(lines: seq<Line>): set<string> {
    HOP_BY_HOP + match HeaderValue(lines, "connection")
                 case Some(value) => Tokens(Split(value, ','), UpgradeRequested(lines))
                 case None => {}
  }

  /** Everything the rewrite decides before it looks at a line. */
  datatype Policy = Policy(hop: set<string>, upgrade: bool, stripAuthorization: bool, replaceHost: bool)

  predicate DropsName(name: string, p: Policy) {
    || (name == "host" && p.replaceHost)
    || name == "x-forwarded-for" || name == "forwarded"
    || (name == "authorization" && p.stripAuthorization)
    || name == "x-forwarded-host" || name == "x-forwarded-proto" || name == "connection"
    || (name == "upgrade" && !p.upgrade)
    || name in p.hop
  }

  predicate Drops(line: Line, p: Policy) {
    line.field.Some? && DropsName(line.field.value.name, p)
  }

  /** The lines that pass through; a dropped field takes its continuations along. */
  function Kept(ls: seq<Line>, skipping: bool, p: Policy): (r: seq<Line>)
    ensures forall i :: 0 <= i < |r| ==> r[i] in ls
  {
    if ls == [] then []
    else if ls[0].fold then
      (if skipping then [] else [ls[0]]) + Kept(ls[1..], skipping, p)
    else if Drops(ls[0], p) then Kept(ls[1..], true, p)
    else [ls[0]] + Kept(ls[1..], false, p)
  }

  /** Values of the fields with this name, continuations ignored. */
  function Values(ls: seq<Line>, name: string): seq<string> {
    if ls == [] then []
    else (if Names(ls[0], name) then [ls[0].field.value.value] else []) + Values(ls[1..], name)
  }

  function Join(parts: seq<string>): string {
    if parts == [] then ""
    else if |parts| == 1 then parts[0]
    else parts[0] + ", " + Join(parts[1..])
  }

  datatype Hop = Hop(clientIp: string, clientIsV4: bool, scheme: string, upstreamHost: Option<string>, loopToken: string)

  ghost predicate LfFreeHop(hop: Hop) {
    LfFree(hop.clientIp) && LfFree(hop.scheme) && LfFree(hop.loopToken) &&
    (hop.upstreamHost.Some? ==> LfFree(hop.upstreamHost.value))
  }

  function ForwardedElement(hop: Hop, hostRaw: string): string {
    (if hop.clientIsV4 then "for=" + hop.clientIp else "for=\"[" + hop.clientIp + "]\"")
    + ";host=" + hostRaw + ";proto=" + hop.scheme
  }

  /** `push_header`. */
  function Pushed(name: string, value: string): string {
    name + ": " + value
  }

  /** The fields appended after the ones that pass through. */
  function Injected(ls: seq<Line>, hop: Hop, hostRaw: string, upgrade: bool): (r: seq<string>) {
    [ Pushed("X-Forwarded-For", Join(Values(ls, "x-forwarded-for") + [hop.clientIp])),
      Pushed("X-Forwarded-Host", hostRaw),
      Pushed("X-Forwarded-Proto", hop.scheme),
      Pushed("Forwarded", Join(Values(ls, "forwarded") + [ForwardedElement(hop, hostRaw)])),
      Pushed("X-Tlsproxy-Rid", hop.loopToken),
      Pushed("Connection", if upgrade then "upgrade" else "close") ]
    + (match hop.upstreamHost case Some(host) => [Pushed("Host", host)] case None => [])
  }

  function PolicyFor(head: string, stripAuthorization: bool, hop: Hop): Policy {
    var lines := AllLines(head);
    Policy(HopByHop(lines), UpgradeRequested(lines), stripAuthorization, hop.upstreamHost.Some?)
  }

  /** All lines of the rewritten head. */
  function RewrittenLines(head: string, hostRaw: string, stripAuthorization: bool, hop: Hop): seq<string> {
    var p := PolicyFor(head, stripAuthorization, hop);
    [RequestLine(head)] + Texts(Kept(Headers(head), false, p)) + Injected(Headers(head), hop, hostRaw, p.upgrade)
  }

  /** `rewrite_for_proxy` without the body prefix. */
  function Rewritten(head: string, hostRaw: string, stripAuthorization: bool, hop: Hop): string {
    Render(RewrittenLines(head, hostRaw, stripAuthorization, hop))
  }
}
