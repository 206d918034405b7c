/** What survives `rewrite_for_proxy`: where the head ends, how the body is framed,
    which fields are named once, and what an upstream would parse. */
module HttpRewrite {
  import opened Text
  import opened HeadLines
  import opened HttpHeads

  // ---------------------------------------------------------------- injected fields

  lemma TrimAfterSpace(s: string)
    requires s != [] && !IsSpace(s[0]) && !IsSpace(s[|s| - 1])
    ensures Trim(" " + s) == s
  {
    assert (" " + s)[1..] == s;
    assert TrimStart(" " + s) == s;
  }

  lemma PushedReads(name: string, lower: string, value: string)
    requires name != [] && !IsSpace(name[0]) && !IsSpace(name[|name| - 1])
    requires forall i :: 0 <= i < |name| ==> name[i] != ':'
    requires |lower| == |name| && forall i :: 0 <= i < |name| ==> LowerChar(name[i]) == lower[i]
    ensures var l := Read(Pushed(name, value));
            !l.fold && l.field == Some(Field(lower, Trim(" " + value), " " + value))
  {
    var text := Pushed(name, value);
    assert text[0] == name[0];
    FindAt(text, ':', |name|);
    assert text[..|name|] == name && text[|name| + 1..] == " " + value;
    TrimSolid(name);
    assert Lower(name) == lower;
  }

  /** A non-continuation field with this name and value. */
  ghost predicate Is(line: Line, name: string, value: string) {
    Names(line, name) && line.field.value.value == value
  }

  lemma ForwardedForReads(value: string)
    ensures Names(Read(Pushed("X-Forwarded-For", value)), "x-forwarded-for")
  { PushedReads("X-Forwarded-For", "x-forwarded-for", value); }

  lemma ForwardedHostReads(value: string)
    ensures Names(Read(Pushed("X-Forwarded-Host", value)), "x-forwarded-host")
  { PushedReads("X-Forwarded-Host", "x-forwarded-host", value); }

  lemma ForwardedProtoReads(value: string)
    ensures Names(Read(Pushed("X-Forwarded-Proto", value)), "x-forwarded-proto")
  { PushedReads("X-Forwarded-Proto", "x-forwarded-proto", value); }

  lemma ForwardedReads(value: string)
    ensures Names(Read(Pushed("Forwarded", value)), "forwarded")
  { PushedReads("Forwarded", "forwarded", value); }

  lemma LoopTokenReads(value: string)
    ensures Names(Read(Pushed("X-Tlsproxy-Rid", value)), "x-tlsproxy-rid")
  { PushedReads("X-Tlsproxy-Rid", "x-tlsproxy-rid", value); }

  lemma ConnectionReads(value: string)
    requires value != [] && !IsSpace(value[0]) && !IsSpace(value[|value| - 1])
    ensures Is(Read(Pushed("Connection", value)), "connection", value)
  {
    PushedReads("Connection", "connection", value);
    TrimAfterSpace(value);
  }

  lemma OptionReads(upgrade: bool)
    ensures Is(Read(Pushed("Connection", if upgrade then "upgrade" else "close")), "connection", if upgrade then "upgrade" else "close")
  {
    hide Read, Pushed, Is;
    ConnectionReads(if upgrade then "upgrade" else "close");
  }

  lemma HostReads(value: string)
    ensures Is(Read(Pushed("Host", value)), "host", Trim(" " + value))
  { PushedReads("Host", "host", value); }

  /** The injected lines, as an upstream reads them: fields in a fixed order. */
  ghost predicate InjectedShape(inj: seq<Line>, hop: Hop, upgrade: bool) {
    && |inj| == (if hop.upstreamHost.Some? then 7 else 6)
    && Names(inj[0], "x-forwarded-for") && Names(inj[1], "x-forwarded-host") && Names(inj[2], "x-forwarded-proto")
    && Names(inj[3], "forwarded") && Names(inj[4], "x-tlsproxy-rid")
    && Is(inj[5], "connection", if upgrade then "upgrade" else "close")
    && (hop.upstreamHost.Some? ==> Is(inj[6], "host", Trim(" " + hop.upstreamHost.value)))
  }

  lemma InjectedReads(ls: seq<Line>, hop: Hop, hostRaw: string, upgrade: bool)
    ensures InjectedShape(ReadAll(Injected(ls, hop, hostRaw, upgrade)), hop, upgrade)
  {
    hide Read, Pushed, Join, Values, ForwardedElement, Names, Is, Trim, IsSpace;
    ForwardedForReads(Join(Values(ls, "x-forwarded-for") + [hop.clientIp]));
    ForwardedHostReads(hostRaw);
    ForwardedProtoReads(hop.scheme);
    ForwardedReads(Join(Values(ls, "forwarded") + [ForwardedElement(hop, hostRaw)]));
    LoopTokenReads(hop.loopToken);
    OptionReads(upgrade);
    if hop.upstreamHost.Some? { HostReads(hop.upstreamHost.value); }
  }

  // ---------------------------------------------------------------- framing

  predicate DropsLength(p: Policy) { "content-length" in p.hop }
  predicate DropsEncoding(p: Policy) { "transfer-encoding" in p.hop }

  ghost predicate NoFramingField(ls: seq<Line>) {
    forall i :: 0 <= i < |ls| ==>
      !ls[i].fold && ls[i].field.Some? &&
      ls[i].field.value.name != "content-length" && ls[i].field.value.name != "transfer-encoding"
  }

  /** What a scan state becomes when the dropped framing fields are gone; the scan
      of the rewritten head may remember another `last`. */
  function Without(st: Seen, p: Policy, last: bool): Seen {
    Seen(if DropsLength(p) then None else st.length, if DropsEncoding(p) then None else st.encoding, last)
  }

  ghost predicate SameButLast(a: Seen, b: Seen) {
    a.length == b.length && a.encoding == b.encoding
  }

  lemma {:induction false} ScanOfOthers(ls: seq<Line>, st: Seen)
    requires NoFramingField(ls)
    ensures FramingScan(ls, st).Ok? && SameButLast(FramingScan(ls, st).value, st)
  {
    if ls != [] { ScanOfOthers(ls[1..], st.(last := false)); }
  }

  /** One kept line moves both scans the same way. */
  lemma KeptLine(line: Line, p: Policy, st: Seen, last: bool)
    requires !line.fold && line.field.Some? && !Drops(line, p)
    ensures var step := FramingLine(line, st);
            var kept := FramingLine(line, Without(st, p, last));
            && (step.Ok? ==> kept == Ok(Without(step.value, p, step.value.last)))
            && (!DropsLength(p) && !DropsEncoding(p) && step.Err? ==> kept == step)
  {
    hide ParseUnsigned, Lower;
  }

  /** One dropped line moves only the scan of the original head. */
  lemma DroppedLine(line: Line, p: Policy, st: Seen, last: bool)
    requires !line.fold && Drops(line, p)
    ensures var step := FramingLine(line, st);
            && (step.Ok? ==> Without(step.value, p, last) == Without(st, p, last))
            && (!DropsLength(p) && !DropsEncoding(p) ==> step == Ok(st.(last := false)))
  {
    hide ParseUnsigned, Lower;
  }

  lemma ScanStep(ls: seq<Line>, st: Seen)
    requires ls != []
    ensures FramingScan(ls, st) == match FramingLine(ls[0], st)
                                   case Err(e) => Err(e)
                                   case Ok(next) => FramingScan(ls[1..], next)
  {
  }

  lemma FoldLine(line: Line, p: Policy, st: Seen)
    requires line.fold
    ensures FramingLine(line, st) == if st.last then Err(FoldedFraming) else Ok(st)
    ensures FramingLine(line, Without(st, p, st.last)) == if st.last then Err(FoldedFraming) else Ok(Without(st, p, st.last))
  {
  }

  /** The framing scan of the kept lines follows the scan of the original ones,
      with the dropped framing fields taken out of its state. */
  lemma {:induction false} KeptFramingScan(
      ls: seq<Line>, skipping: bool, p: Policy, extra: seq<Line>, st: Seen, last: bool)
    requires EveryLineIsAField(ls) && NoFramingField(extra)
    requires !skipping ==> last == st.last
    requires !DropsLength(p) && !DropsEncoding(p) && skipping ==> !st.last
    ensures var original := FramingScan(ls, st);
            var rewritten := FramingScan(Kept(ls, skipping, p) + extra, Without(st, p, last));
            && (original.Ok? ==> rewritten.Ok? && SameButLast(rewritten.value, Without(original.value, p, false)))
            && (!DropsLength(p) && !DropsEncoding(p) && original.Err? ==> rewritten == original)
  {
    hide FramingLine, Drops;
    if ls == [] {
      assert Kept(ls, skipping, p) + extra == extra;
      ScanOfOthers(extra, Without(st, p, last));
    } else {
      EveryLineSplit(ls);
      ScanStep(ls, st);
      var step := FramingLine(ls[0], st);
      if !ls[0].fold && Drops(ls[0], p) {
        DroppedLine(ls[0], p, st, last);
        if step.Ok? { KeptFramingScan(ls[1..], true, p, extra, step.value, last); }
      } else if ls[0].fold && skipping {
        FoldLine(ls[0], p, st);
        assert Kept(ls, skipping, p) == Kept(ls[1..], skipping, p);
        if step.Ok? { KeptFramingScan(ls[1..], skipping, p, extra, st, last); }
      } else {
        KeptStep(ls, skipping, p, extra);
        ScanStep(Kept(ls, skipping, p) + extra, Without(st, p, last));
        if ls[0].fold { FoldLine(ls[0], p, st); } else { KeptLine(ls[0], p, st, last); }
        if step.Ok? { KeptFramingScan(ls[1..], false, p, extra, step.value, step.value.last); }
      }
    }
  }

  lemma KeptStep(ls: seq<Line>, skipping: bool, p: Policy, extra: seq<Line>)
    requires ls != [] && (if ls[0].fold then !skipping else !Drops(ls[0], p))
    ensures var kept := Kept(ls, skipping, p) + extra;
            kept != [] && kept[0] == ls[0] && kept[1..] == Kept(ls[1..], skipping && ls[0].fold, p) + extra
  {
  }

  /** The framing a rewritten head announces, for any head whose framing is
      accepted: it is the original one exactly when the client's Connection
      field does not name the field that carries it. */
  ghost predicate KeepsFraming(f: Framing, p: Policy) {
    match f
    case Length(n) => n == 0 || !DropsLength(p)
    case Chunked => !DropsEncoding(p)
  }

  // ---------------------------------------------------------------- line feeds

  ghost predicate LfFreeLines(ls: seq<string>) {
    forall i :: 0 <= i < |ls| ==> LfFree(ls[i])
  }

  lemma LfFreeSubset(s: string, t: string)
    requires LfFree(t) && forall c :: c in s ==> c in t
    ensures LfFree(s)
  {
    forall i | 0 <= i < |s| ensures s[i] != LF { assert s[i] in t; }
  }

  lemma FieldValueLfFree(text: string)
    requires LfFree(text)
    ensures Read(text).field.Some? ==> LfFree(Read(text).field.value.value)
  {
    var split := SplitOnce(text, ':');
    if split.Some? {
      assert forall c :: c in split.value.1 ==> c in text;
      LfFreeSubset(Trim(split.value.1), text);
    }
  }

  /** A header line as `Headers` delivers it. */
  ghost predicate Genuine(ls: seq<Line>) {
    forall i :: 0 <= i < |ls| ==> ls[i] == Read(ls[i].text) && LfFree(ls[i].text) && ls[i].text != []
  }

  lemma HeadersGenuine(head: string)
    ensures Genuine(Headers(head))
  {
    hide Read;
    var texts := HeaderLines(head);
    assert forall i :: 0 <= i < |texts| ==> Headers(head)[i] == Read(texts[i]) && LfFree(texts[i]) && texts[i] != [];
  }

  lemma {:induction false} ValuesLfFree(ls: seq<Line>, name: string)
    requires Genuine(ls)
    ensures LfFreeLines(Values(ls, name))
  {
    hide Read, LfFree;
    if ls != [] {
      FieldValueLfFree(ls[0].text);
      ValuesLfFree(ls[1..], name);
    }
  }

  lemma {:induction false} HostValueLfFree(ls: seq<Line>)
    requires Genuine(ls)
    ensures HostValue(ls).Some? ==> LfFree(HostValue(ls).value)
  {
    hide Read, LfFree;
    if ls != [] {
      FieldValueLfFree(ls[0].text);
      HostValueLfFree(ls[1..]);
    }
  }

  lemma LfFreeConcat(a: string, b: string)
    requires LfFree(a) && LfFree(b)
    ensures LfFree(a + b)
  {
  }

  lemma {:induction false} JoinLfFree(parts: seq<string>)
    requires LfFreeLines(parts)
    ensures LfFree(Join(parts))
  {
    if |parts| > 1 {
      JoinLfFree(parts[1..]);
      LfFreeConcat(parts[0] + ", ", Join(parts[1..]));
    }
  }

  lemma PushedLfFree(name: string, value: string)
    requires LfFree(name) && LfFree(value) && name != []
    ensures LfFree(Pushed(name, value)) && Pushed(name, value) != []
  {
  }

  lemma ForwardedElementLfFree(hop: Hop, hostRaw: string)
    requires LfFreeHop(hop) && LfFree(hostRaw)
    ensures LfFree(ForwardedElement(hop, hostRaw))
  {
    var who := if hop.clientIsV4 then "for=" + hop.clientIp else "for=\"[" + hop.clientIp + "]\"";
    assert LfFree(who);
    LfFreeConcat(who, ";host=");
    LfFreeConcat(who + ";host=", hostRaw);
    LfFreeConcat(who + ";host=" + hostRaw, ";proto=");
    LfFreeConcat(who + ";host=" + hostRaw + ";proto=", hop.scheme);
  }

  lemma InjectedPrintable(ls: seq<Line>, hop: Hop, hostRaw: string, upgrade: bool)
    requires Genuine(ls) && LfFreeHop(hop) && LfFree(hostRaw)
    ensures var inj := Injected(ls, hop, hostRaw, upgrade);
            LfFreeLines(inj) && forall i :: 0 <= i < |inj| ==> inj[i] != []
  {
    hide Pushed, Join, Values, ForwardedElement, Genuine;
    ValuesLfFree(ls, "x-forwarded-for");
    JoinLfFree(Values(ls, "x-forwarded-for") + [hop.clientIp]);
    PushedLfFree("X-Forwarded-For", Join(Values(ls, "x-forwarded-for") + [hop.clientIp]));
    PushedLfFree("X-Forwarded-Host", hostRaw);
    PushedLfFree("X-Forwarded-Proto", hop.scheme);
    ValuesLfFree(ls, "forwarded");
    ForwardedElementLfFree(hop, hostRaw);
    JoinLfFree(Values(ls, "forwarded") + [ForwardedElement(hop, hostRaw)]);
    PushedLfFree("Forwarded", Join(Values(ls, "forwarded") + [ForwardedElement(hop, hostRaw)]));
    PushedLfFree("X-Tlsproxy-Rid", hop.loopToken);
    PushedLfFree("Connection", if upgrade then "upgrade" else "close");
    if hop.upstreamHost.Some? { PushedLfFree("Host", hop.upstreamHost.value); }
  }

  // ---------------------------------------------------------------- the rewritten head

  /** The head of an accepted request, with the Host value it was accepted under. */
  ghost predicate Accepted(head: string, hostRaw: string) {
    AcceptedHeaders(Headers(head)) && HostValue(Headers(head)) == Some(hostRaw)
  }

  /** The kept lines and the injected ones, as an upstream reads them. */
  function ReadOut(head: string, hostRaw: string, stripAuthorization: bool, hop: Hop): seq<Line> {
    var p := PolicyFor(head, stripAuthorization, hop);
    Kept(Headers(head), false, p) + ReadAll(Injected(Headers(head), hop, hostRaw, p.upgrade))
  }

  lemma KeptGenuine(ls: seq<Line>, p: Policy)
    requires Genuine(ls)
    ensures Genuine(Kept(ls, false, p))
  {
    hide Read, LfFree;
    var kept := Kept(ls, false, p);
    forall i | 0 <= i < |kept| ensures kept[i] == Read(kept[i].text) && LfFree(kept[i].text) && kept[i].text != [] {
      assert kept[i] in ls;
    }
  }

  lemma PrintedReads(request: string, kept: seq<Line>, inj: seq<string>, body: string)
    requires LfFree(request) && Genuine(kept) && LfFreeLines(inj) && forall i :: 0 <= i < |inj| ==> inj[i] != []
    ensures var out := Render([request] + Texts(kept) + inj);
            && HeadEnd(out + body) == Some(|out|)
            && RequestLine(out) == request
            && Headers(out) == kept + ReadAll(inj)
  {
    hide Read, HeadEnd, Lines, LfFree, Render;
    var all := [request] + Texts(kept) + inj;
    RenderRoundTrip(all, body);
    assert all[1..] == Texts(kept) + inj;
  }

  lemma RewrittenReads(head: string, hostRaw: string, stripAuthorization: bool, hop: Hop, body: string)
    requires Accepted(head, hostRaw) && LfFreeHop(hop)
    ensures var out := Rewritten(head, hostRaw, stripAuthorization, hop);
            && HeadEnd(out + body) == Some(|out|)
            && RequestLine(out) == RequestLine(head)
            && Headers(out) == ReadOut(head, hostRaw, stripAuthorization, hop)
  {
    hide Headers, HeadEnd, RequestLine, PolicyFor, Kept, Injected, LfFree, Genuine, Render, Texts, ReadAll;
    var p := PolicyFor(head, stripAuthorization, hop);
    var ls := Headers(head);
    HeadersGenuine(head);
    HostValueLfFree(ls);
    KeptGenuine(ls, p);
    InjectedPrintable(ls, hop, hostRaw, p.upgrade);
    PrintedReads(RequestLine(head), Kept(ls, false, p), Injected(ls, hop, hostRaw, p.upgrade), body);
  }

  lemma OtherName(line: Line, name: string, other: string)
    requires Names(line, name) && name != other
    ensures !Names(line, other) && !line.fold && line.field.Some? && line.field.value.name != other
  {
  }

  lemma CountOne(ls: seq<Line>, k: nat, name: string)
    requires k < |ls| && Names(ls[k], name)
    requires forall i :: 0 <= i < |ls| && i != k ==> !Names(ls[i], name)
    ensures Count(ls, name) == 1
  {
    hide Names;
    var a, b := ls[..k], ls[k + 1..];
    CountNone(a, name);
    CountNone(b, name);
    CountAppend(a, [ls[k]] + b, name);
    assert ls == a + ([ls[k]] + b) && ([ls[k]] + b)[1..] == b;
  }

  /** The name of each injected line. */
  function InjectedName(i: nat): string {
    if i == 0 then "x-forwarded-for" else if i == 1 then "x-forwarded-host" else if i == 2 then "x-forwarded-proto"
    else if i == 3 then "forwarded" else if i == 4 then "x-tlsproxy-rid" else if i == 5 then "connection" else "host"
  }

  lemma InjectedNames(inj: seq<Line>, hop: Hop, upgrade: bool)
    requires InjectedShape(inj, hop, upgrade)
    ensures forall i :: 0 <= i < |inj| ==> Names(inj[i], InjectedName(i))
  {
    hide Names, Trim;
    forall i | 0 <= i < |inj| ensures Names(inj[i], InjectedName(i)) {
      if i >= 5 { IsNames(inj[5], "connection"); }
      if i == 6 { IsNames(inj[6], "host"); }
    }
  }

  lemma IsNames(line: Line, name: string)
    ensures (exists value :: Is(line, name, value)) ==> Names(line, name)
  {
  }

  lemma InjectedNamesDiffer(i: nat)
    requires i <= 6
    ensures InjectedName(i) == "connection" <==> i == 5
    ensures InjectedName(i) == "host" <==> i == 6
    ensures InjectedName(i) != "content-length" && InjectedName(i) != "transfer-encoding"
  {
    var name := InjectedName(i);
    assert i != 5 ==> |name| != |"connection"|;
    assert i != 6 ==> |name| != |"host"|;
    assert |name| == |"content-length"| ==> name[0] == 'x';
    assert |name| == |"transfer-encoding"| ==> name[0] == 'x';
  }

  lemma NamesExtra(inj: seq<Line>, hop: Hop, upgrade: bool)
    requires InjectedShape(inj, hop, upgrade)
    ensures NoFramingField(inj)
    ensures Count(inj, "connection") == 1
    ensures Count(inj, "host") == if hop.upstreamHost.Some? then 1 else 0
  {
    hide Names, InjectedName, Count, Is;
    InjectedNames(inj, hop, upgrade);
    forall i | 0 <= i < |inj|
      ensures InjectedName(i) == "connection" <==> i == 5
      ensures InjectedName(i) == "host" <==> i == 6
      ensures i != 5 ==> !Names(inj[i], "connection")
      ensures i != 6 ==> !Names(inj[i], "host")
      ensures !inj[i].fold && inj[i].field.Some?
      ensures inj[i].field.value.name != "content-length" && inj[i].field.value.name != "transfer-encoding"
    {
      InjectedNamesDiffer(i);
      if i != 5 { OtherName(inj[i], InjectedName(i), "connection"); }
      if i != 6 { OtherName(inj[i], InjectedName(i), "host"); }
      OtherName(inj[i], InjectedName(i), "content-length");
      OtherName(inj[i], InjectedName(i), "transfer-encoding");
    }
    CountOne(inj, 5, "connection");
    if hop.upstreamHost.Some? { CountOne(inj, 6, "host"); } else { CountNone(inj, "host"); }
  }

  lemma {:induction false} CountNone(ls: seq<Line>, name: string)
    requires forall i :: 0 <= i < |ls| ==> !Names(ls[i], name)
    ensures Count(ls, name) == 0
  {
    if ls != [] { CountNone(ls[1..], name); }
  }

  /** A name passes through completely or not at all. */
  lemma {:induction false} CountKept(ls: seq<Line>, skipping: bool, p: Policy, name: string)
    ensures Count(Kept(ls, skipping, p), name) == if DropsName(name, p) then 0 else Count(ls, name)
  {
    hide DropsName;
    if ls != [] {
      CountKept(ls[1..], if ls[0].fold then skipping else Drops(ls[0], p), p, name);
      CountAppend([ls[0]], Kept(ls[1..], skipping && ls[0].fold, p), name);
      assert [ls[0]][1..] == [];
      if ls[0].fold && skipping { assert Kept(ls, skipping, p) == Kept(ls[1..], skipping, p); }
    }
  }

  lemma {:induction false} HostValueKept(ls: seq<Line>, skipping: bool, p: Policy, extra: seq<Line>)
    requires !DropsName("host", p)
    ensures HostValue(Kept(ls, skipping, p) + extra) == if HostValue(ls).Some? then HostValue(ls) else HostValue(extra)
  {
    hide DropsName;
    if ls == [] {
      assert Kept(ls, skipping, p) + extra == extra;
    } else {
      HostValueKept(ls[1..], if ls[0].fold then skipping else Drops(ls[0], p), p, extra);
      if !(ls[0].fold && skipping) && (ls[0].fold || !Drops(ls[0], p)) {
        KeptStep(ls, skipping, p, extra);
      } else {
        assert Kept(ls, skipping, p) + extra == Kept(ls[1..], if ls[0].fold then skipping else true, p) + extra;
      }
    }
  }

  lemma {:induction false} HostValueSkips(ls: seq<Line>, extra: seq<Line>)
    requires Count(ls, "host") == 0
    ensures HostValue(ls + extra) == HostValue(extra)
  {
    if ls == [] {
      assert ls + extra == extra;
    } else {
      assert (ls + extra)[1..] == ls[1..] + extra;
      HostValueSkips(ls[1..], extra);
    }
  }

  /** No continuation follows a Host field, reading on after `afterHost`. */
  predicate FoldSafe(ls: seq<Line>, afterHost: bool) {
    ls == [] || (!(ls[0].fold && afterHost) && FoldSafe(ls[1..], Names(ls[0], "host")))
  }

  lemma {:induction false} FoldSafeMeans(ls: seq<Line>, afterHost: bool)
    ensures FoldSafe(ls, afterHost) <==> NoFoldedHost(ls) && !(afterHost && ls != [] && ls[0].fold)
  {
    if ls != [] {
      NoFoldedHostSplit(ls);
      FoldSafeMeans(ls[1..], Names(ls[0], "host"));
    }
  }

  lemma {:induction false} KeptFoldSafe(ls: seq<Line>, skipping: bool, p: Policy, extra: seq<Line>, afterHost: bool, afterKept: bool)
    requires FoldSafe(ls, afterHost) && (!skipping ==> afterKept == afterHost)
    requires forall i :: 0 <= i < |extra| ==> !extra[i].fold
    ensures FoldSafe(Kept(ls, skipping, p) + extra, afterKept)
  {
    hide DropsName;
    if ls == [] {
      assert Kept(ls, skipping, p) + extra == extra;
      NoFoldsSafe(extra, afterKept);
    } else if ls[0].fold && skipping {
      assert Kept(ls, skipping, p) == Kept(ls[1..], skipping, p);
      KeptFoldSafe(ls[1..], skipping, p, extra, false, afterKept);
    } else if !ls[0].fold && Drops(ls[0], p) {
      KeptFoldSafe(ls[1..], true, p, extra, Names(ls[0], "host"), afterKept);
    } else {
      KeptStep(ls, skipping, p, extra);
      KeptFoldSafe(ls[1..], false, p, extra, Names(ls[0], "host"), Names(ls[0], "host"));
    }
  }

  lemma {:induction false} NoFoldsSafe(ls: seq<Line>, afterHost: bool)
    requires forall i :: 0 <= i < |ls| ==> !ls[i].fold
    ensures FoldSafe(ls, afterHost)
  {
    if ls != [] { NoFoldsSafe(ls[1..], Names(ls[0], "host")); }
  }

  lemma KeptFields(ls: seq<Line>, p: Policy)
    requires EveryLineIsAField(ls)
    ensures EveryLineIsAField(Kept(ls, false, p))
  {
    var kept := Kept(ls, false, p);
    forall i | 0 <= i < |kept| && !kept[i].fold ensures kept[i].field.Some? { assert kept[i] in ls; }
  }

  // ---------------------------------------------------------------- main results

  lemma FramingOfLines(ls: seq<Line>, p: Policy, inj: seq<Line>)
    requires EveryLineIsAField(ls) && NoFramingField(inj)
    ensures var framing := BodyFraming(ls);
            var rewritten := BodyFraming(Kept(ls, false, p) + inj);
            && (framing.Ok? ==> (rewritten == framing <==> KeepsFraming(framing.value, p)))
            && (!DropsLength(p) && !DropsEncoding(p) ==> rewritten == framing)
  {
    hide Kept, FramingScan, DropsLength, DropsEncoding;
    assert Without(UNSEEN, p, false) == UNSEEN;
    KeptFramingScan(ls, false, p, inj, UNSEEN, false);
  }

  /** The rewritten head ends right before the bytes that follow it, and an upstream
      reads from it the framing the proxy itself will relay by, exactly when the
      client's Connection field does not name the field that carries the framing. */
  lemma RewriteFraming(head: string, hostRaw: string, stripAuthorization: bool, hop: Hop, body: string)
    requires Accepted(head, hostRaw) && LfFreeHop(hop)
    ensures var out := Rewritten(head, hostRaw, stripAuthorization, hop);
            var p := PolicyFor(head, stripAuthorization, hop);
            var framing := BodyFraming(Headers(head));
            && HeadEnd(out + body) == Some(|out|)
            && (framing.Ok? ==> (BodyFraming(Headers(out)) == framing <==> KeepsFraming(framing.value, p)))
            && (!DropsLength(p) && !DropsEncoding(p) ==> BodyFraming(Headers(out)) == framing)
  {
    hide Headers, HeadEnd, PolicyFor, Kept, Injected, ReadAll, Rewritten, BodyFraming, InjectedShape, NoFramingField,
      KeepsFraming, DropsLength, DropsEncoding;
    var p := PolicyFor(head, stripAuthorization, hop);
    var inj := ReadAll(Injected(Headers(head), hop, hostRaw, p.upgrade));
    RewrittenReads(head, hostRaw, stripAuthorization, hop, body);
    InjectedReads(Headers(head), hop, hostRaw, p.upgrade);
    NamesExtra(inj, hop, p.upgrade);
    FramingOfLines(Headers(head), p, inj);
  }

  lemma HostOfLines(ls: seq<Line>, p: Policy, inj: seq<Line>, hop: Hop)
    requires AcceptedHeaders(ls) && InjectedShape(inj, hop, p.upgrade) && p.replaceHost == hop.upstreamHost.Some?
    ensures var out := Kept(ls, false, p) + inj;
            && Count(out, "connection") == 1
            && Count(out, "host") == (if p.replaceHost || "host" !in p.hop then 1 else 0)
            && EveryLineIsAField(out) && NoFoldedHost(out)
  {
    hide Kept, Trim;
    var kept := Kept(ls, false, p);
    NamesExtra(inj, hop, p.upgrade);
    CountAppend(kept, inj, "connection");
    CountKept(ls, false, p, "connection");
    CountAppend(kept, inj, "host");
    CountKept(ls, false, p, "host");
    DropsHost(p);
    FoldSafeMeans(ls, false);
    KeptFoldSafe(ls, false, p, inj, false, false);
    FoldSafeMeans(kept + inj, false);
    KeptFields(ls, p);
  }

  lemma HostValueOfLines(ls: seq<Line>, p: Policy, inj: seq<Line>, hop: Hop)
    requires AcceptedHeaders(ls) && InjectedShape(inj, hop, p.upgrade) && p.replaceHost == hop.upstreamHost.Some?
    requires p.replaceHost || "host" !in p.hop
    ensures HostValue(Kept(ls, false, p) + inj) ==
      match hop.upstreamHost case Some(host) => Some(Trim(" " + host)) case None => HostValue(ls)
  {
    hide Kept, Trim, InjectedShape;
    DropsHost(p);
    if p.replaceHost {
      CountKept(ls, false, p, "host");
      HostValueSkips(Kept(ls, false, p), inj);
      InjectedHost(inj, hop, p.upgrade);
    } else {
      HostValueCounts(ls);
      HostValueKept(ls, false, p, inj);
    }
  }

  /** The next hop accepts the rewritten head and routes it by the upstream host, or
      by the client's Host when there is none, exactly when the client did not have
      its only Host removed; there is then one Host field, and always one Connection
      field. */
  lemma RewriteHost(head: string, hostRaw: string, stripAuthorization: bool, hop: Hop)
    requires Accepted(head, hostRaw) && LfFreeHop(hop)
    ensures var out := Headers(Rewritten(head, hostRaw, stripAuthorization, hop));
            var keepsHost := hop.upstreamHost.Some? || "host" !in HopByHop(AllLines(head));
            var routed := match hop.upstreamHost case Some(host) => Trim(" " + host) case None => hostRaw;
            && Count(out, "connection") == 1
            && Count(out, "host") == (if keepsHost then 1 else 0)
            && (AcceptedHeaders(out) <==> keepsHost)
            && (keepsHost ==> HostValue(out) == Some(routed))
  {
    hide Headers, Kept, Injected, ReadAll, Rewritten, HopByHop, UpgradeRequested, AllLines, Trim, Count, HostValue,
      InjectedShape, EveryLineIsAField, NoFoldedHost;
    var p := PolicyFor(head, stripAuthorization, hop);
    var ls := Headers(head);
    var inj := ReadAll(Injected(ls, hop, hostRaw, p.upgrade));
    RewrittenReads(head, hostRaw, stripAuthorization, hop, "");
    InjectedReads(ls, hop, hostRaw, p.upgrade);
    HostOfLines(ls, p, inj, hop);
    if hop.upstreamHost.Some? || "host" !in p.hop { HostValueOfLines(ls, p, inj, hop); }
  }

  lemma DropsHost(p: Policy)
    ensures DropsName("host", p) <==> p.replaceHost || "host" in p.hop
    ensures DropsName("connection", p)
  {
  }

  lemma InjectedHost(inj: seq<Line>, hop: Hop, upgrade: bool)
    requires InjectedShape(inj, hop, upgrade) && hop.upstreamHost.Some?
    ensures HostValue(inj) == Some(Trim(" " + hop.upstreamHost.value))
  {
    hide Trim;
    NamesExtra(inj, hop, upgrade);
    CountAppend(inj[..6], inj[6..], "host");
    assert inj == inj[..6] + inj[6..] && inj[6..] == [inj[6]] && [inj[6]][1..] == [];
    HostValueSkips(inj[..6], inj[6..]);
  }
}
