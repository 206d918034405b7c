/** Field by field, what the next hop reads from a rewritten head. */
module HttpFields {
  import opened Text
  import opened HttpHeads
  import opened HttpRewrite

  /** Values joined by a comma and a space, `last` at the end. */
  function Chain(values: seq<string>, last: string): string {
    if values == [] then last else values[0] + ", " + Chain(values[1..], last)
  }

  /** The Forwarded element of section 4 of RFC 7239: an IPv6 address is quoted in brackets. */
  function Element(hop: Hop, hostRaw: string): string {
    if hop.clientIsV4 then "for=" + hop.clientIp + ";host=" + hostRaw + ";proto=" + hop.scheme
    else "for=\"[" + hop.clientIp + "]\";host=" + hostRaw + ";proto=" + hop.scheme
  }

  /** What the proxy itself adds under a name, given the client's fields. */
  function Added(name: string, ls: seq<Line>, hop: Hop, hostRaw: string, upgrade: bool): seq<string> {
    if name == "x-forwarded-for" then [Trim(" " + Chain(Values(ls, name), hop.clientIp))]
    else if name == "x-forwarded-host" then [Trim(" " + hostRaw)]
    else if name == "x-forwarded-proto" then [Trim(" " + hop.scheme)]
    else if name == "forwarded" then [Trim(" " + Chain(Values(ls, name), Element(hop, hostRaw)))]
    else if name == "x-tlsproxy-rid" then [Trim(" " + hop.loopToken)]
    else if name == "connection" then [if upgrade then "upgrade" else "close"]
    else if name == "host" && hop.upstreamHost.Some? then [Trim(" " + hop.upstreamHost.value)]
    else []
  }

  lemma {:induction false} JoinChains(values: seq<string>, last: string)
    ensures Join(values + [last]) == Chain(values, last)
  {
    if values != [] {
      JoinChains(values[1..], last);
      assert (values + [last])[1..] == values[1..] + [last];
      assert |values + [last]| > 1;
    }
  }

  lemma ElementIs(hop: Hop, hostRaw: string)
    ensures ForwardedElement(hop, hostRaw) == Element(hop, hostRaw)
  {
  }

  /** The value of each injected line. */
  function InjectedValue(i: nat, ls: seq<Line>, hop: Hop, hostRaw: string, upgrade: bool): string {
    if i == 0 then Join(Values(ls, "x-forwarded-for") + [hop.clientIp])
    else if i == 1 then hostRaw
    else if i == 2 then hop.scheme
    else if i == 3 then Join(Values(ls, "forwarded") + [ForwardedElement(hop, hostRaw)])
    else if i == 4 then hop.loopToken
    else if i == 5 then (if upgrade then "upgrade" else "close")
    else if hop.upstreamHost.Some? then hop.upstreamHost.value
    else ""
  }

  /** The name of each injected line as it is written. */
  function InjectedTitle(i: nat): string {
    if i == 0 then "X-Forwarded-For" else if i == 1 then "X-Forwarded-Host" else if i == 2 then "X-Forwarded-Proto"
    else if i == 3 then "Forwarded" else if i == 4 then "X-Tlsproxy-Rid" else if i == 5 then "Connection" else "Host"
  }

  /** `title` can be written as a field name and reads as `name`. */
  ghost predicate LowersTo(title: string, name: string) {
    && title != [] && !IsSpace(title[0]) && !IsSpace(title[|title| - 1]) && (forall k :: 0 <= k < |title| ==> title[k] != ':')
    && |name| == |title| && forall k :: 0 <= k < |title| ==> LowerChar(title[k]) == name[k]
  }

  lemma ForwardedForLowers()
    ensures LowersTo("X-Forwarded-For", "x-forwarded-for")
  {
  }

  lemma ForwardedHostLowers()
    ensures LowersTo("X-Forwarded-Host", "x-forwarded-host")
  {
  }

  lemma ForwardedProtoLowers()
    ensures LowersTo("X-Forwarded-Proto", "x-forwarded-proto")
  {
  }

  lemma ForwardedLowers()
    ensures LowersTo("Forwarded", "forwarded")
  {
  }

  lemma LoopTokenLowers()
    ensures LowersTo("X-Tlsproxy-Rid", "x-tlsproxy-rid")
  {
  }

  lemma ConnectionLowers()
    ensures LowersTo("Connection", "connection")
  {
  }

  lemma HostLowers()
    ensures LowersTo("Host", "host")
  {
  }

  lemma TitleLowers(i: nat)
    requires i <= 6
    ensures LowersTo(InjectedTitle(i), InjectedName(i))
  {
    hide LowersTo;
    ForwardedForLowers();
    ForwardedHostLowers();
    ForwardedProtoLowers();
    ForwardedLowers();
    LoopTokenLowers();
    ConnectionLowers();
    HostLowers();
  }

  lemma InjectedAt(i: nat, ls: seq<Line>, hop: Hop, hostRaw: string, upgrade: bool)
    requires i < |Injected(ls, hop, hostRaw, upgrade)|
    ensures Injected(ls, hop, hostRaw, upgrade)[i] == Pushed(InjectedTitle(i), InjectedValue(i, ls, hop, hostRaw, upgrade))
    ensures |Injected(ls, hop, hostRaw, upgrade)| == if hop.upstreamHost.Some? then 7 else 6
  {
    hide Join, Values, ForwardedElement, Pushed;
  }

  /** Each injected line reads as its field. */
  lemma InjectedIs(i: nat, ls: seq<Line>, hop: Hop, hostRaw: string, upgrade: bool)
    requires i < |Injected(ls, hop, hostRaw, upgrade)|
    ensures var inj := ReadAll(Injected(ls, hop, hostRaw, upgrade));
            i < |inj| && Is(inj[i], InjectedName(i), Trim(" " + InjectedValue(i, ls, hop, hostRaw, upgrade)))
  {
    InjectedAt(i, ls, hop, hostRaw, upgrade);
    hide Injected, Read, InjectedValue, Pushed, Trim;
    TitleLowers(i);
    hide InjectedTitle, InjectedName;
    PushedReads(InjectedTitle(i), InjectedName(i), InjectedValue(i, ls, hop, hostRaw, upgrade));
  }

  lemma {:induction false} ValuesAppend(a: seq<Line>, b: seq<Line>, name: string)
    ensures Values(a + b, name) == Values(a, name) + Values(b, name)
  {
    if a == [] {
      assert a + b == b;
    } else {
      assert (a + b)[1..] == a[1..] + b;
      ValuesAppend(a[1..], b, name);
    }
  }

  lemma {:induction false} ValuesNone(ls: seq<Line>, name: string)
    requires forall i :: 0 <= i < |ls| ==> !Names(ls[i], name)
    ensures Values(ls, name) == []
  {
    if ls != [] { ValuesNone(ls[1..], name); }
  }

  lemma ValuesOne(ls: seq<Line>, k: nat, name: string)
    requires k < |ls| && Names(ls[k], name)
    requires forall i :: 0 <= i < |ls| && i != k ==> !Names(ls[i], name)
    ensures Values(ls, name) == [ls[k].field.value.value]
  {
    var a, b := ls[..k], ls[k + 1..];
    ValuesNone(a, name);
    ValuesNone(b, name);
    ValuesAppend(a, [ls[k]] + b, name);
    assert ls == a + ([ls[k]] + b) && ([ls[k]] + b)[1..] == b;
  }

  /** What passes, passes whole: all values of a name in order, or none. */
  lemma {:induction false} ValuesKept(ls: seq<Line>, skipping: bool, p: Policy, name: string)
    ensures Values(Kept(ls, skipping, p), name) == if DropsName(name, p) then [] else Values(ls, name)
  {
    hide DropsName;
    if ls != [] {
      var rest := if ls[0].fold then skipping else Drops(ls[0], p);
      ValuesKept(ls[1..], rest, p, name);
      ValuesAppend([ls[0]], Kept(ls[1..], rest, p), name);
      assert [ls[0]][1..] == [];
      if ls[0].fold && skipping { assert Kept(ls, skipping, p) == Kept(ls[1..], skipping, p); }
    }
  }

  /** No two injected lines have one name. */
  lemma NamesApart(i: nat, j: nat)
    requires i <= 6 && j <= 6 && InjectedName(i) == InjectedName(j)
    ensures i == j
  {
    assert |InjectedName(i)| == if i == 0 then 15 else if i == 1 then 16 else if i == 2 then 17 else if i == 3 then 9
                                else if i == 4 then 14 else if i == 5 then 10 else 4;
    assert |InjectedName(j)| == if j == 0 then 15 else if j == 1 then 16 else if j == 2 then 17 else if j == 3 then 9
                                else if j == 4 then 14 else if j == 5 then 10 else 4;
  }

  /** Which injected line has this name, if any. */
  function Place(name: string): nat {
    if name == "x-forwarded-for" then 0 else if name == "x-forwarded-host" then 1 else if name == "x-forwarded-proto" then 2
    else if name == "forwarded" then 3 else if name == "x-tlsproxy-rid" then 4 else if name == "connection" then 5
    else if name == "host" then 6 else 7
  }

  lemma PlaceIs(name: string, i: nat)
    requires i <= 6
    ensures InjectedName(i) == name <==> Place(name) == i
  {
    if Place(name) <= 6 {
      assert InjectedName(Place(name)) == name;
      if InjectedName(i) == name {
        NamesApart(i, Place(name));
      }
    }
  }

  lemma Solid(upgrade: bool)
    ensures Trim(" " + if upgrade then "upgrade" else "close") == if upgrade then "upgrade" else "close"
  {
    TrimAfterSpace("upgrade");
    TrimAfterSpace("close");
  }

  lemma AddedAt(name: string, ls: seq<Line>, hop: Hop, hostRaw: string, upgrade: bool)
    ensures Added(name, ls, hop, hostRaw, upgrade) ==
            if Place(name) < (if hop.upstreamHost.Some? then 7 else 6)
            then [Trim(" " + InjectedValue(Place(name), ls, hop, hostRaw, upgrade))] else []
  {
    Solid(upgrade);
    ElementIs(hop, hostRaw);
    JoinChains(Values(ls, "x-forwarded-for"), hop.clientIp);
    JoinChains(Values(ls, "forwarded"), Element(hop, hostRaw));
    hide Trim, Join, Values, ForwardedElement, Chain, Element;
  }

  lemma InjectedValues(name: string, ls: seq<Line>, hop: Hop, hostRaw: string, upgrade: bool)
    ensures Values(ReadAll(Injected(ls, hop, hostRaw, upgrade)), name) == Added(name, ls, hop, hostRaw, upgrade)
  {
    var texts := Injected(ls, hop, hostRaw, upgrade);
    var inj := ReadAll(texts);
    InjectedAt(0, ls, hop, hostRaw, upgrade);
    AddedAt(name, ls, hop, hostRaw, upgrade);
    hide Injected, InjectedValue, InjectedName, Trim, Added, Read, Values;
    forall i | 0 <= i < |inj| ensures Names(inj[i], name) <==> i == Place(name) {
      InjectedIs(i, ls, hop, hostRaw, upgrade);
      PlaceIs(name, i);
    }
    hide Place;
    if Place(name) < |inj| {
      InjectedIs(Place(name), ls, hop, hostRaw, upgrade);
      hide Names;
      ValuesOne(inj, Place(name), name);
    } else {
      hide Names;
      ValuesNone(inj, name);
    }
  }

  /** The first line, continuation lines included, that reads as a field of this name. */
  ghost predicate FirstNamed(lines: seq<Line>, k: nat, name: string) {
    && k < |lines| && lines[k].field.Some? && lines[k].field.value.name == name
    && forall j :: 0 <= j < k && lines[j].field.Some? ==> lines[j].field.value.name != name
  }

  /** The client's Connection field lists this option. */
  ghost predicate Lists(lines: seq<Line>, option: string) {
    exists k: nat, part ::
      FirstNamed(lines, k, "connection") && part in Split(lines[k].field.value.value, ',') && Lower(Trim(part)) == option
  }

  /** The client asks to switch protocols: it lists `upgrade` and names one. */
  ghost predicate AsksUpgrade(lines: seq<Line>) {
    Lists(lines, "upgrade") && exists k: nat :: FirstNamed(lines, k, "upgrade")
  }

  /** The field goes no further than this hop: hop by hop by section 7.6.1 of RFC 9110,
      consumed here, or replaced by one of the proxy's own. */
  ghost predicate Stops(lines: seq<Line>, name: string, consumed: bool, hop: Hop) {
    || name == "keep-alive" || name == "te" || name == "trailer" || name == "proxy-authorization" || name == "proxy-connection"
    || (name == "authorization" && consumed)
    || name == "connection" || name == "x-forwarded-for" || name == "x-forwarded-host" || name == "x-forwarded-proto" || name == "forwarded"
    || (name == "host" && hop.upstreamHost.Some?)
    || (name == "upgrade" && !Lists(lines, "upgrade"))
    || (name != "" && name != "close" && name != "upgrade" && Lists(lines, name))
  }

  lemma {:induction false} HeaderValueIs(lines: seq<Line>, name: string) returns (k: nat)
    ensures HeaderValue(lines, name).Some? ==> FirstNamed(lines, k, name) && HeaderValue(lines, name) == Some(lines[k].field.value.value)
    ensures HeaderValue(lines, name).None? ==> forall j :: 0 <= j < |lines| && lines[j].field.Some? ==> lines[j].field.value.name != name
  {
    k := 0;
    if lines != [] && !(lines[0].field.Some? && lines[0].field.value.name == name) {
      var rest := HeaderValueIs(lines[1..], name);
      k := rest + 1;
      forall j | 0 < j < |lines| ensures lines[j] == lines[1..][j - 1] { }
    }
  }

  lemma FirstNamedUnique(lines: seq<Line>, k: nat, m: nat, name: string)
    requires FirstNamed(lines, k, name) && FirstNamed(lines, m, name)
    ensures k == m
  {
  }

  lemma ListsIff(lines: seq<Line>, option: string)
    ensures Lists(lines, option) <==>
      && HeaderValue(lines, "connection").Some?
      && exists part :: part in Split(HeaderValue(lines, "connection").value, ',') && Lower(Trim(part)) == option
  {
    hide Split, Lower, Trim;
    var k := HeaderValueIs(lines, "connection");
    if Lists(lines, option) {
      var m: nat, part :|
        FirstNamed(lines, m, "connection") && part in Split(lines[m].field.value.value, ',') && Lower(Trim(part)) == option;
      assert HeaderValue(lines, "connection").Some?;
      FirstNamedUnique(lines, k, m, "connection");
    }
  }

  lemma AsksUpgradeIff(lines: seq<Line>)
    ensures AsksUpgrade(lines) <==> UpgradeRequested(lines)
  {
    hide Split, Lower, Trim, FirstNamed;
    ListsIff(lines, "upgrade");
    var k := HeaderValueIs(lines, "upgrade");
    NoneNamed(lines, "upgrade");
  }

  lemma NoneNamed(lines: seq<Line>, name: string)
    ensures HeaderValue(lines, name).Some? <==> exists k: nat :: FirstNamed(lines, k, name)
  {
    var k := HeaderValueIs(lines, name);
  }

  lemma {:induction false} TokensAre(parts: seq<string>, upgrade: bool, option: string)
    ensures option in Tokens(parts, upgrade) <==>
      && (exists part :: part in parts && Lower(Trim(part)) == option)
      && option != "" && option != "close" && !(option == "upgrade" && upgrade)
  {
    hide Lower, Trim;
    if parts != [] {
      TokensAre(parts[1..], upgrade, option);
      assert parts == [parts[0]] + parts[1..];
    }
  }

  /** What the policy drops is what stops here, up to an upgrade nobody asked for by name. */
  lemma DropsIff(head: string, name: string, consumed: bool, hop: Hop)
    ensures var lines := AllLines(head);
            var drops := DropsName(name, PolicyFor(head, consumed, hop));
            && (name != "upgrade" ==> (drops <==> Stops(lines, name, consumed, hop)))
            && (name == "upgrade" ==> (drops <==> !AsksUpgrade(lines)))
  {
    hide AllLines, Lists, Lower, Trim, Split;
    var lines := AllLines(head);
    ListsIff(lines, name);
    AsksUpgradeIff(lines);
    ListsIff(lines, "upgrade");
    var v := HeaderValue(lines, "connection");
    if v.Some? {
      TokensAre(Split(v.value, ','), UpgradeRequested(lines), name);
    }
    hide AsksUpgrade, UpgradeRequested, HeaderValue, Tokens;
  }

  /** The header section is the first part of all lines. */
  lemma HeadersFirst(head: string)
    ensures Headers(head) <= AllLines(head)
  {
  }

  lemma {:induction false} ValuesNamed(ls: seq<Line>, lines: seq<Line>, name: string)
    requires ls <= lines && HeaderValue(lines, name).None?
    ensures Values(ls, name) == []
  {
    var k := HeaderValueIs(lines, name);
    forall i | 0 <= i < |ls| ensures !Names(ls[i], name) { assert ls[i] == lines[i]; }
    ValuesNone(ls, name);
  }

  /** For every name: the values the next hop reads are, in order, those the client sent,
      unless the field stops at this hop, followed by what the proxy adds. */
  lemma RewriteFields(head: string, hostRaw: string, stripAuthorization: bool, hop: Hop, name: string)
    requires Accepted(head, hostRaw) && LfFreeHop(hop)
    ensures var lines := AllLines(head);
            Values(Headers(Rewritten(head, hostRaw, stripAuthorization, hop)), name) ==
              (if Stops(lines, name, stripAuthorization, hop) then [] else Values(Headers(head), name))
              + Added(name, Headers(head), hop, hostRaw, AsksUpgrade(lines))
  {
    hide Headers, Kept, Injected, Rewritten, HopByHop, UpgradeRequested, AllLines, Added, ReadAll, Values, Accepted, LfFreeHop,
      DropsName, Stops, AsksUpgrade;
    var p, ls, lines := PolicyFor(head, stripAuthorization, hop), Headers(head), AllLines(head);
    RewrittenReads(head, hostRaw, stripAuthorization, hop, "");
    ValuesKept(ls, false, p, name);
    InjectedValues(name, ls, hop, hostRaw, p.upgrade);
    ValuesAppend(Kept(ls, false, p), ReadAll(Injected(ls, hop, hostRaw, p.upgrade)), name);
    AsksUpgradeIff(lines);
    DropsIff(head, name, stripAuthorization, hop);
    if name == "upgrade" {
      UpgradePasses(head, stripAuthorization, hop);
    }
  }

  /** An Upgrade field passes exactly when the Connection field lists it. */
  lemma UpgradePasses(head: string, consumed: bool, hop: Hop)
    ensures var lines := AllLines(head);
            && (Stops(lines, "upgrade", consumed, hop) <==> !Lists(lines, "upgrade"))
            && (Lists(lines, "upgrade") && !AsksUpgrade(lines) ==> Values(Headers(head), "upgrade") == [])
            && (AsksUpgrade(lines) ==> Lists(lines, "upgrade"))
  {
    hide AllLines, Headers, Values, Lists;
    var lines := AllLines(head);
    HeadersFirst(head);
    NoneNamed(lines, "upgrade");
    if HeaderValue(lines, "upgrade").None? {
      ValuesNamed(Headers(head), lines, "upgrade");
    }
  }

  /** Consumed credentials and the fixed hop-by-hop fields never reach the upstream. */
  lemma NeverForwarded(head: string, hostRaw: string, stripAuthorization: bool, hop: Hop, name: string)
    requires Accepted(head, hostRaw) && LfFreeHop(hop)
    requires (name == "authorization" && stripAuthorization) || name == "keep-alive" || name == "te" || name == "trailer"
             || name == "proxy-authorization" || name == "proxy-connection"
    ensures Values(Headers(Rewritten(head, hostRaw, stripAuthorization, hop)), name) == []
  {
    hide Headers, Rewritten, AllLines, Values, Accepted, LfFreeHop, Lists, AsksUpgrade;
    RewriteFields(head, hostRaw, stripAuthorization, hop, name);
    assert |name| == 13 || |name| == 10 || |name| == 2 || |name| == 7 || |name| == 19 || |name| == 16;
    assert |name| == 16 ==> name[0] == 'p';
  }
}
