/** The loops of `http_header.rs` and the parsed head they build and rewrite. */
module HttpProxyHead {
  import opened Text
  import opened HeadLines
  import opened HttpHeads
  import opened HttpRewrite

  /** Where a header loop stands before line `i`: the lines up to the blank one are
      the headers. */
  lemma AtLine(head: string, i: nat)
    requires 1 <= i <= |Headers(head)| + 1
    ensures |Headers(head)| + 1 <= |Lines(head)|
    ensures i < |Lines(head)| && Lines(head)[i] != [] <==> i <= |Headers(head)|
    ensures i <= |Headers(head)| ==> Headers(head)[i - 1] == Read(Lines(head)[i])
  {
    hide Read, Lines;
    var rest := Lines(head)[1..];
    assert i < |Lines(head)| ==> rest[i - 1] == Lines(head)[i];
    assert |HeaderLines(head)| < |rest| ==> rest[|HeaderLines(head)|] == [];
  }

  lemma ScanStepHead(ls: seq<Line>, st: Scan)
    requires ls != []
    ensures ScanHeaders(ls, st) == match ScanLine(ls[0], st)
                                   case Err(e) => Err(e)
                                   case Ok(next) => ScanHeaders(ls[1..], next)
  {
  }

  /** `parse_head` on the text of a head. */
  method ParseHead(head: string) returns (r: Result<Parsed, HeadError>)
    ensures r == Parse(head)
  {
    hide Read, Words, HostPort, Headers, Lines, ScanLine, RequestParts;
    var lines := Lines(head);
    var request := RequestParts(lines[0]);
    if request.Err? { return Err(request.error); }
    ghost var headers := Headers(head);
    var st := START;
    var i := 1;
    AtLine(head, 1);
    while i < |lines| && lines[i] != []
      invariant 1 <= i <= |headers| + 1 <= |lines|
      invariant i < |lines| && lines[i] != [] <==> i <= |headers|
      invariant ScanHeaders(headers, START) == ScanHeaders(headers[i - 1..], st)
    {
      AtLine(head, i);
      ScanStepHead(headers[i - 1..], st);
      assert headers[i - 1..][1..] == headers[i..];
      var step := ScanLine(Read(lines[i]), st);
      if step.Err? { return Err(step.error); }
      st := step.value;
      i := i + 1;
      AtLine(head, i);
    }
    if st.host.None? { return Err(MissingHost); }
    var split := HostPort(st.host.value);
    if split.Err? { return Err(split.error); }
    return Ok(Parsed(request.value.0, request.value.1, split.value.0, split.value.1, st.host.value, st.authorization, st.tokens));
  }

  /** `body_framing` on the text of a head. */
  method FramingOf(head: string) returns (r: Result<Framing, FramingError>)
    ensures r == BodyFraming(Headers(head))
  {
    hide Read, Headers, Lines, FramingLine, Decide;
    var lines := Lines(head);
    ghost var headers := Headers(head);
    var st := UNSEEN;
    var i := 1;
    AtLine(head, 1);
    while i < |lines| && lines[i] != []
      invariant 1 <= i <= |headers| + 1 <= |lines|
      invariant i < |lines| && lines[i] != [] <==> i <= |headers|
      invariant FramingScan(headers, UNSEEN) == FramingScan(headers[i - 1..], st)
    {
      AtLine(head, i);
      ScanStep(headers[i - 1..], st);
      assert headers[i - 1..][1..] == headers[i..];
      var step := FramingLine(Read(lines[i]), st);
      if step.Err? { return Err(step.error); }
      st := step.value;
      i := i + 1;
      AtLine(head, i);
    }
    return Decide(st);
  }

  lemma KeptStepAt(ls: seq<Line>, i: nat, skipping: bool, p: Policy)
    requires i < |ls|
    ensures ls[i..][1..] == ls[i + 1..]
    ensures Kept(ls[i..], skipping, p) ==
      if ls[i].fold then (if skipping then [] else [ls[i]]) + Kept(ls[i + 1..], skipping, p)
      else if Drops(ls[i], p) then Kept(ls[i + 1..], true, p)
      else [ls[i]] + Kept(ls[i + 1..], false, p)
  {
  }

  lemma ValuesStepAt(ls: seq<Line>, i: nat, name: string)
    requires i < |ls|
    ensures Values(ls[i..], name) == (if Names(ls[i], name) then [ls[i].field.value.value] else []) + Values(ls[i + 1..], name)
  {
    assert ls[i..][1..] == ls[i + 1..];
  }

  lemma JoinedSnoc(ls: seq<string>, line: string)
    ensures Joined(ls + [line]) == Joined(ls) + line + "\r\n"
  {
    assert (ls + [line])[..|ls|] == ls;
  }

  /** One round of the header loop of `rewrite_for_proxy`. */
  method CopyLine(line: Line, p: Policy, output: string, skipping: bool, xff: seq<string>, forwarded: seq<string>)
      returns (output': string, skipping': bool, xff': seq<string>, forwarded': seq<string>, copied: bool)
    ensures copied == if line.fold then !skipping else !Drops(line, p)
    ensures skipping' == if line.fold then skipping else Drops(line, p)
    ensures output' == if copied then output + line.text + "\r\n" else output
    ensures xff' == xff + if Names(line, "x-forwarded-for") then [line.field.value.value] else []
    ensures forwarded' == forwarded + if Names(line, "forwarded") then [line.field.value.value] else []
  {
    output', skipping', xff', forwarded' := output, skipping, xff, forwarded;
    if !line.fold {
      skipping' := false;
      if line.field.Some? {
        var name := line.field.value.name;
        if name == "x-forwarded-for" {
          xff' := xff + [line.field.value.value];
          skipping' := true;
        } else if name == "forwarded" {
          forwarded' := forwarded + [line.field.value.value];
          skipping' := true;
        } else if DropsName(name, p) {
          skipping' := true;
        }
      }
    }
    copied := !skipping';
    if copied { output' := output + line.text + "\r\n"; }
  }

  /** After `k` header lines the loop has copied `kept` and collected these values. */
  ghost predicate Progress(ls: seq<Line>, k: nat, p: Policy, kept: seq<Line>, skipping: bool, xff: seq<string>, forwarded: seq<string>) {
    && k <= |ls|
    && Kept(ls, false, p) == kept + Kept(ls[k..], skipping, p)
    && Values(ls, "x-forwarded-for") == xff + Values(ls[k..], "x-forwarded-for")
    && Values(ls, "forwarded") == forwarded + Values(ls[k..], "forwarded")
  }

  lemma ProgressStart(ls: seq<Line>, p: Policy)
    ensures Progress(ls, 0, p, [], false, [], [])
  {
    assert ls[0..] == ls;
  }

  lemma ProgressStep(ls: seq<Line>, k: nat, p: Policy, kept: seq<Line>, skipping: bool, xff: seq<string>, forwarded: seq<string>)
    requires Progress(ls, k, p, kept, skipping, xff, forwarded) && k < |ls|
    ensures var line := ls[k];
            var copied := if line.fold then !skipping else !Drops(line, p);
            Progress(ls, k + 1, p, if copied then kept + [line] else kept,
                     if line.fold then skipping else Drops(line, p),
                     xff + (if Names(line, "x-forwarded-for") then [line.field.value.value] else []),
                     forwarded + (if Names(line, "forwarded") then [line.field.value.value] else []))
  {
    hide Kept, Values, Drops, Names;
    KeptStepAt(ls, k, skipping, p);
    ValuesStepAt(ls, k, "x-forwarded-for");
    ValuesStepAt(ls, k, "forwarded");
  }

  lemma ProgressEnd(ls: seq<Line>, p: Policy, kept: seq<Line>, skipping: bool, xff: seq<string>, forwarded: seq<string>)
    requires Progress(ls, |ls|, p, kept, skipping, xff, forwarded)
    ensures kept == Kept(ls, false, p) && xff == Values(ls, "x-forwarded-for") && forwarded == Values(ls, "forwarded")
  {
    assert ls[|ls|..] == [];
  }

  lemma CopiedText(first: string, kept: seq<Line>, line: Line)
    ensures Joined([first] + Texts(kept + [line])) == Joined([first] + Texts(kept)) + line.text + "\r\n"
  {
    JoinedSnoc([first] + Texts(kept), line.text);
    assert [first] + Texts(kept + [line]) == [first] + Texts(kept) + [line.text];
  }

  lemma FirstText(first: string)
    ensures Joined([first] + Texts([])) == first + "\r\n"
  {
    assert [first] + Texts([]) == [first];
    assert [first][..0] == [];
  }

  /** The header loop of `rewrite_for_proxy`: what it has written, and the values it
      has collected on the way. */
  method CopyHeaders(head: string, p: Policy) returns (output: string, xff: seq<string>, forwarded: seq<string>)
    ensures output == Joined([RequestLine(head)] + Texts(Kept(Headers(head), false, p)))
    ensures xff == Values(Headers(head), "x-forwarded-for")
    ensures forwarded == Values(Headers(head), "forwarded")
  {
    hide Read, Headers, Lines, Kept, Values, Joined, Drops, Names, Progress, Texts;
    var lines := Lines(head);
    ghost var headers := Headers(head);
    ghost var kept: seq<Line> := [];
    output, xff, forwarded := lines[0] + "\r\n", [], [];
    FirstText(lines[0]);
    ProgressStart(headers, p);
    var skipping := false;
    var i := 1;
    AtLine(head, 1);
    while i < |lines| && lines[i] != []
      invariant 1 <= i <= |headers| + 1 <= |lines|
      invariant i < |lines| && lines[i] != [] <==> i <= |headers|
      invariant output == Joined([lines[0]] + Texts(kept))
      invariant Progress(headers, i - 1, p, kept, skipping, xff, forwarded)
    {
      AtLine(head, i);
      ProgressStep(headers, i - 1, p, kept, skipping, xff, forwarded);
      var line := Read(lines[i]);
      var copied;
      output, skipping, xff, forwarded, copied := CopyLine(line, p, output, skipping, xff, forwarded);
      CopiedText(lines[0], kept, line);
      if copied { kept := kept + [line]; }
      i := i + 1;
      AtLine(head, i);
    }
    ProgressEnd(headers, p, kept, skipping, xff, forwarded);
  }

  lemma JoinedNone()
    ensures Joined([]) == ""
  {
  }

  lemma JoinedLast(ls: seq<string>, extra: seq<string>)
    ensures Joined(ls) + Joined(extra) + "\r\n" == Render(ls + extra)
  {
    JoinedRenders(extra, []);
    assert extra + [] == extra;
    JoinedRenders(ls, extra);
  }

  /** `rewrite_for_proxy`: the rewritten head followed by the bytes after the head. */
  method RewriteForProxy(head: string, hostRaw: string, stripAuthorization: bool, hop: Hop, body: string) returns (output: string)
    ensures output == Rewritten(head, hostRaw, stripAuthorization, hop) + body
  {
    hide Headers, Kept, Values, Joined, Render, HopByHop, UpgradeRequested, AllLines, ForwardedElement, Pushed, Join;
    var p := PolicyFor(head, stripAuthorization, hop);
    var xff, forwarded;
    output, xff, forwarded := CopyHeaders(head, p);
    ghost var copied := output;
    ghost var pushed: seq<string> := [];
    xff := xff + [hop.clientIp];
    forwarded := forwarded + [ForwardedElement(hop, hostRaw)];
    JoinedNone();
    var fields := [
      Pushed("X-Forwarded-For", Join(xff)),
      Pushed("X-Forwarded-Host", hostRaw),
      Pushed("X-Forwarded-Proto", hop.scheme),
      Pushed("Forwarded", Join(forwarded)),
      Pushed("X-Tlsproxy-Rid", hop.loopToken),
      Pushed("Connection", if p.upgrade then "upgrade" else "close")];
    if hop.upstreamHost.Some? {
      fields := fields + [Pushed("Host", hop.upstreamHost.value)];
    }
    var i := 0;
    while i < |fields|
      invariant 0 <= i <= |fields|
      invariant output == copied + Joined(fields[..i])
    {
      output := output + fields[i] + "\r\n";
      JoinedSnoc(fields[..i], fields[i]);
      assert fields[..i + 1] == fields[..i] + [fields[i]];
      i := i + 1;
    }
    assert fields[..i] == fields;
    assert fields == Injected(Headers(head), hop, hostRaw, p.upgrade);
    JoinedLast([RequestLine(head)] + Texts(Kept(Headers(head), false, p)), fields);
    output := output + "\r\n" + body;
  }

  // ---------------------------------------------------------------- path prefixes

  /** The target left after removing a route prefix, whose own trailing slashes do
      not count; nothing left means the root. */
  function StrippedTarget(target: string, prefix: string): string {
    var p := TrimEndOf(prefix, '/');
    if p <= target then (if target[|p|..] == [] then "/" else target[|p|..]) else target
  }

  lemma AfterLineShift(n: nat, m: nat, t: string)
    ensures AfterLine(n, t).Some? <==> AfterLine(m, t).Some?
    ensures AfterLine(n, t).Some? ==> AfterLine(n, t).value - n == AfterLine(m, t).value - m
  {
  }

  lemma HeadHasLine(b: string, headLen: nat)
    requires HeadEnd(b) == Some(headLen)
    ensures Find(b, LF) + 1 <= headLen <= |b|
  {
  }

  /** Replacing the first line of a head, line feed included, by another line moves
      the head end by the difference of their lengths and leaves every other line
      and everything after the head alone. */
  lemma FirstLineReplaced(b: string, headLen: nat, line: string)
    requires HeadEnd(b) == Some(headLen) && LfFree(line)
    ensures var p := Find(b, LF);
            var b' := line + "\n" + b[p + 1..];
            var headLen' := |line| + 1 + (headLen - (p + 1));
            && p + 1 <= headLen <= |b| && headLen' <= |b'|
            && HeadEnd(b') == Some(headLen')
            && b'[headLen'..] == b[headLen..]
            && Lines(b'[..headLen']) == [StripCr(line)] + Lines(b[..headLen])[1..]
  {
    hide HeadEnd, AfterLine, Lines, StripCr;
    HeadHasLine(b, headLen);
    var p := Find(b, LF);
    var t, headLen' := b[p + 1..], |line| + 1 + (headLen - (p + 1));
    var b' := line + "\n" + t;
    assert LfFree(b[..p]) && b == b[..p] + "\n" + t;
    HeadEndStep(b[..p], t);
    HeadEndStep(line, t);
    AfterLineShift(p + 1, |line| + 1, t);
    var rest := b[p + 1..headLen];
    assert b[..headLen] == b[..p] + "\n" + rest by { assert t[..headLen - (p + 1)] == rest; }
    assert b'[..headLen'] == line + "\n" + rest;
    LinesStep(b[..p], rest);
    LinesStep(line, rest);
  }

  lemma FirstLineEnds(b: string, headLen: nat)
    requires HeadEnd(b) == Some(headLen)
    ensures headLen <= |b| && Find(b[..headLen], LF) == Find(b, LF) < headLen
  {
    FindAt(b[..headLen], LF, Find(b, LF));
  }

  lemma RequestWords(head: string)
    requires Find(head, LF) < |head|
    ensures Words(TrimEndOf(head[..Find(head, LF)], CR)) == Words(RequestLine(head))
  {
    var raw := head[..Find(head, LF)];
    assert RequestLine(head) == StripCr(raw);
    hide Words, TrimEndOf, RequestLine, Find;
    WordsTrimmed(raw);
    if raw != [] && raw[|raw| - 1] == CR {
      assert raw == raw[..|raw| - 1] + [CR];
      WordsTrailing(raw[..|raw| - 1], CR);
    }
  }

  lemma TargetIsWord(target: string, prefix: string)
    requires IsWord(target)
    ensures IsWord(StrippedTarget(target, prefix))
  {
  }

  lemma LineOfWords(a: string, b: string, c: string, line: string)
    requires IsWord(a) && IsWord(b) && IsWord(c)
    requires line == a + " " + b + " " + c || line == a + " " + b + " " + c + "\r"
    ensures LfFree(line)
    ensures Words(StripCr(line)) == [a, b, c]
  {
    ThreeWords(a, b, c);
    var text := a + " " + b + " " + c;
    assert text[|text| - 1] == c[|c| - 1];
    assert StripCr(line) == text;
  }

  lemma SameHeaders(h: string, h': string)
    requires Lines(h)[1..] == Lines(h')[1..]
    ensures Headers(h) == Headers(h') && AllLines(h) == AllLines(h')
  {
  }

  lemma WordsAreWords(s: string, i: nat)
    requires i < |Words(s)|
    ensures IsWord(Words(s)[i])
  {
    var w := Words(s)[i];
    assert w in Words(s);
  }

  lemma ParsedRequest(head: string)
    requires Parse(head).Ok?
    ensures var ws := Words(RequestLine(head));
            |ws| == 3 && ws[0] == Parse(head).value.requestMethod && ws[1] == Parse(head).value.target
  {
    hide ScanHeaders, HostPort, Words, Headers, RequestLine;
  }

  /** The request line `strip_path_prefix` writes for the raw first line `first`,
      without its line feed: same method, version and carriage return. */
  function RebuiltLine(first: string, newTarget: string): string {
    var parts := Words(TrimEndOf(first, CR));
    (if |parts| > 0 then parts[0] else "") + " " + newTarget + " " + (if |parts| > 2 then parts[2] else "HTTP/1.1")
    + (if first != [] && first[|first| - 1] == CR then "\r" else "")
  }

  /** The head with its request line rebuilt for the stripped target. */
  function StrippedHead(head: string, prefix: string): string {
    var p := Find(head, LF);
    var ws := Words(RequestLine(head));
    if p == |head| || |ws| != 3 then head
    else RebuiltLine(head[..p], StrippedTarget(ws[1], prefix)) + "\n" + head[p + 1..]
  }

  lemma RebuiltHead(b: string, headLen: nat, prefix: string)
    requires HeadEnd(b) == Some(headLen) && headLen <= |b|
    requires |Words(RequestLine(b[..headLen]))| == 3
    ensures var p := Find(b[..headLen], LF);
            var ws := Words(RequestLine(b[..headLen]));
            var newTarget := StrippedTarget(ws[1], prefix);
            p < headLen &&
            var line := RebuiltLine(b[..headLen][..p], newTarget) + "\n";
            var b' := line + b[p + 1..];
            var headLen' := |line| + (headLen - (p + 1));
            && headLen' <= |b'| && HeadEnd(b') == Some(headLen') && b'[headLen'..] == b[headLen..]
            && b'[..headLen'] == StrippedHead(b[..headLen], prefix)
            && Words(RequestLine(b'[..headLen'])) == [ws[0], newTarget, ws[2]]
            && Headers(b'[..headLen']) == Headers(b[..headLen]) && AllLines(b'[..headLen']) == AllLines(b[..headLen])
  {
    hide HeadEnd, Words, StrippedTarget, Lines, StripCr, Headers, AllLines;
    var head := b[..headLen];
    FirstLineEnds(b, headLen);
    var p := Find(head, LF);
    RequestWords(head);
    var parts := Words(TrimEndOf(head[..p], CR));
    WordsAreWords(TrimEndOf(head[..p], CR), 0);
    WordsAreWords(TrimEndOf(head[..p], CR), 1);
    WordsAreWords(TrimEndOf(head[..p], CR), 2);
    TargetIsWord(parts[1], prefix);
    var newTarget := StrippedTarget(parts[1], prefix);
    var line := RebuiltLine(head[..p], newTarget);
    LineOfWords(parts[0], newTarget, parts[2], line);
    FirstLineReplaced(b, headLen, line);
    var b' := line + "\n" + b[p + 1..];
    var headLen' := |line| + 1 + (headLen - (p + 1));
    SameHeaders(head, b'[..headLen']);
    assert b'[..headLen'] == line + "\n" + head[p + 1..];
  }

  // ---------------------------------------------------------------- the parsed head

  class HttpHead {
    var requestMethod: string
    var target: string
    var host: string
    var port: Option<nat>
    var hostRaw: string
    var authorization: Option<string>
    var loopTokens: seq<string>
    var stripAuthorization: bool
    var buffered: string
    var headLen: nat

    /** `buffered` starts with a complete head of accepted headers, whose request
        line still consists of the recorded method and target and a version. */
    ghost predicate Valid()
      reads this
    {
      && HeadEnd(buffered) == Some(headLen)
      && Accepted(Head(), hostRaw)
      && var ws := Words(RequestLine(Head())); |ws| == 3 && ws[0] == requestMethod && ws[1] == target
    }

    function Facts(): Parsed
      reads this
    {
      Parsed(requestMethod, target, host, port, hostRaw, authorization, loopTokens)
    }

    function Head(): string
      reads this`buffered, this`headLen
    {
      if headLen <= |buffered| then buffered[..headLen] else buffered
    }

    function BodyPrefix(): string
      reads this`buffered, this`headLen
    {
      if headLen <= |buffered| then buffered[headLen..] else ""
    }

    constructor (p: Parsed, buffered: string, headLen: nat)
      requires HeadEnd(buffered) == Some(headLen)
      requires Parse(buffered[..headLen]) == Ok(p)
      ensures Valid()
      ensures this.buffered == buffered && this.headLen == headLen && !stripAuthorization
      ensures Facts() == p
    {
      hide HeadEnd, Parse, Words, Headers, AcceptedHeaders, HostValue;
      ParsedHeadersAccepted(buffered[..headLen]);
      ParsedRequest(buffered[..headLen]);
      requestMethod, target, host, port := p.requestMethod, p.target, p.host, p.port;
      hostRaw, authorization, loopTokens := p.hostRaw, p.authorization, p.loopTokens;
      stripAuthorization := false;
      this.buffered := buffered;
      this.headLen := headLen;
    }

    method ConsumeAuthorization()
      requires Valid()
      modifies this`stripAuthorization
      ensures Valid() && stripAuthorization
    {
      stripAuthorization := true;
    }

    /** `strip_path_prefix`: only the target changes; the headers, hence routing and
        framing, and the bytes after the head are the same ones. */
    method StripPathPrefix(prefix: string)
      requires Valid()
      modifies this`target, this`buffered, this`headLen
      ensures Valid()
      ensures target == StrippedTarget(old(target), prefix)
      ensures Head() == StrippedHead(old(Head()), prefix)
      ensures Headers(Head()) == old(Headers(Head())) && AllLines(Head()) == old(AllLines(Head()))
      ensures BodyPrefix() == old(BodyPrefix())
    {
      hide Headers, AllLines, AcceptedHeaders, HostValue, HeadEnd, Words, RequestLine, RebuiltLine, StrippedTarget;
      var newTarget := StrippedTarget(target, prefix);
      var head := Head();
      FirstLineEnds(buffered, headLen);
      RebuiltHead(buffered, headLen, prefix);
      var lineEnd := Find(head, LF);
      var rebuilt := RebuiltLine(head[..lineEnd], newTarget) + "\n";
      headLen := |rebuilt| + (headLen - (lineEnd + 1));
      buffered := rebuilt + buffered[lineEnd + 1..];
      target := newTarget;
    }
  }
}
