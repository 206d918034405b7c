/** What a request line, a Host value and a routed target mean, said by concatenation. */
module Addresses {
  import opened Text
  import opened Numerals
  import opened HttpHeads
  import opened HttpProxyHead

  // ---------------------------------------------------------------- request lines

  ghost predicate Blank(s: string) { forall i :: 0 <= i < |s| ==> IsAsciiSpace(s[i]) }

  lemma {:induction false} WordsSkip(gap: string, rest: string)
    requires Blank(gap)
    ensures Words(gap + rest) == Words(rest)
    decreases |gap|
  {
    if gap == [] {
      assert gap + rest == rest;
    } else {
      assert (gap + rest)[1..] == gap[1..] + rest;
      WordsSkip(gap[1..], rest);
    }
  }

  /** A text starts with blanks, then its first word and the rest. */
  ghost predicate Starts(s: string, gap: string, w: string, rest: string) {
    s == gap + w + rest && Blank(gap) && IsWord(w) && (rest != [] ==> IsAsciiSpace(rest[0]))
  }

  lemma StartsWords(s: string, gap: string, w: string, rest: string)
    requires Starts(s, gap, w, rest)
    ensures Words(s) == [w] + Words(rest)
  {
    hide Words;
    assert s == gap + (w + rest);
    WordsSkip(gap, w + rest);
    WordsCons(w, rest);
  }

  lemma {:induction false} FirstWord(s: string) returns (gap: string, w: string, rest: string)
    ensures Words(s) != [] ==> Starts(s, gap, w, rest) && Words(s) == [w] + Words(rest)
    ensures Words(s) == [] ==> Blank(s)
    decreases |s|
  {
    gap, w, rest := [], [], [];
    if s != [] {
      if IsAsciiSpace(s[0]) {
        gap, w, rest := FirstWord(s[1..]);
        assert s == [s[0]] + s[1..];
        if Words(s) != [] {
          assert s == [s[0]] + gap + w + rest;
          gap := [s[0]] + gap;
        }
      } else {
        var n := WordLength(s);
        w, rest := s[..n], s[n..];
        assert s == gap + w + rest;
      }
    }
  }

  /** Method, target and version, apart by whitespace and with any amount around them. */
  ghost predicate ThreeApart(line: string, gaps: (string, string, string, string), words: (string, string, string)) {
    && line == gaps.0 + words.0 + (gaps.1 + words.1 + (gaps.2 + words.2 + gaps.3))
    && Blank(gaps.0) && Blank(gaps.1) && Blank(gaps.2) && Blank(gaps.3) && gaps.1 != [] && gaps.2 != []
    && IsWord(words.0) && IsWord(words.1) && IsWord(words.2)
  }

  lemma ReadsThree(line: string, gaps: (string, string, string, string), words: (string, string, string))
    requires ThreeApart(line, gaps, words)
    ensures Words(line) == [words.0, words.1, words.2]
  {
    var last := gaps.2 + words.2 + gaps.3;
    var rest := gaps.1 + words.1 + last;
    assert rest[0] == gaps.1[0] && last[0] == gaps.2[0];
    StartsWords(line, gaps.0, words.0, rest);
    StartsWords(rest, gaps.1, words.1, last);
    StartsWords(last, gaps.2, words.2, gaps.3);
    hide Words;
    WordsSkip(gaps.3, []);
    assert gaps.3 + [] == gaps.3 && Words([]) == [] by { NoWords(); }
  }

  lemma NoWords()
    ensures Words([]) == []
  {
  }

  lemma FindsThree(line: string) returns (gaps: (string, string, string, string))
    requires |Words(line)| == 3
    ensures ThreeApart(line, gaps, (Words(line)[0], Words(line)[1], Words(line)[2]))
  {
    var g0, w0, r0 := FirstWord(line);
    var g1, w1, r1 := FirstWord(r0);
    var g2, w2, r2 := FirstWord(r1);
    var g3, w3, r3 := FirstWord(r2);
    hide Words;
    gaps := (g0, g1, g2, r2);
    GapBetween(g1, w1, r1, r0);
    GapBetween(g2, w2, r2, r1);
    assert line == g0 + w0 + (g1 + w1 + (g2 + w2 + r2));
  }

  lemma GapBetween(gap: string, w: string, rest: string, s: string)
    requires Starts(s, gap, w, rest) && (s != [] ==> IsAsciiSpace(s[0]))
    ensures gap != []
  {
    assert s[0] == (gap + w)[0];
  }

  /** A request line is taken exactly when it has three words, the last starting with
      `HTTP/1.` and the second with a slash; the first two are the method and target. */
  lemma RequestPartsIff(line: string, verb: string, target: string)
    ensures RequestParts(line) == Err(MalformedRequestLine) <==> |Words(line)| < 2 || |Words(line)| > 3
    ensures RequestParts(line) == Ok((verb, target)) <==>
      exists gaps, version :: ThreeApart(line, gaps, (verb, target, version)) && target[0] == '/' && "HTTP/1." <= version
  {
    if RequestParts(line) == Ok((verb, target)) {
      var gaps := FindsThree(line);
      assert ThreeApart(line, gaps, (verb, target, Words(line)[2]));
    }
    forall gaps, version | ThreeApart(line, gaps, (verb, target, version)) && target[0] == '/' && "HTTP/1." <= version
      ensures RequestParts(line) == Ok((verb, target))
    {
      ReadsThree(line, gaps, (verb, target, version));
    }
  }

  // ---------------------------------------------------------------- Host values

  /** A name: something, and no whitespace in it. */
  ghost predicate Named(host: string) {
    host != [] && forall i :: 0 <= i < |host| ==> !IsSpace(host[i])
  }

  /** A port: an unsigned decimal numeral of 16 bits. */
  ghost predicate Port(text: string, port: Option<nat>) {
    port.Some? && port.value < 65_536 && Unsigned(text, port.value, false)
  }

  /** An address in brackets and what follows them; only a colon starts a port. */
  ghost predicate Bracketed(value: string, host: string, rest: string, port: Option<nat>) {
    && value == "[" + host + "]" + rest && ']' !in host
    && if rest != [] && rest[0] == ':' then Port(rest[1..], port) else port.None?
  }

  /** A name and, after the last colon, a port. */
  ghost predicate WithPort(value: string, host: string, text: string, port: Option<nat>) {
    value == host + ":" + text && ':' !in text && Port(text, port)
  }

  ghost predicate HostMeans(value: string, host: string, port: Option<nat>) {
    value != [] && Named(host) &&
    if value[0] == '[' then exists rest :: Bracketed(value, host, rest, port)
    else if ':' in value then exists text :: WithPort(value, host, text, port)
    else value == host && port.None?
  }

  lemma PortIff(text: string, port: Option<nat>)
    ensures Port(text, port) <==> port.Some? && ParseUnsigned(text, 10, U16) == port
  {
    if port.Some? {
      ParseIff(text, port.value, false, U16);
    }
  }

  lemma CheckedIff(host: string, text: Option<string>, name: string, port: Option<nat>)
    ensures CheckedHost(host, text) == Ok((name, port)) <==>
      name == host && Named(host) && if text.Some? then Port(text.value, port) else port.None?
  {
    if text.Some? { PortIff(text.value, port); }
    hide ParseUnsigned, IsSpace, Port;
  }

  lemma BracketIff(value: string, host: string, port: Option<nat>)
    requires value != [] && value[0] == '['
    ensures HostPort(value) == Ok((host, port)) <==> Named(host) && exists rest :: Bracketed(value, host, rest, port)
  {
    hide SplitOnce, CheckedHost, Port, Named;
    var split := SplitOnce(value[1..], ']');
    if HostPort(value) == Ok((host, port)) {
      var (h, rest) := split.value;
      CheckedIff(h, if rest != [] && rest[0] == ':' then Some(rest[1..]) else None, host, port);
      assert value == "[" + h + "]" + rest;
      assert Bracketed(value, host, rest, port);
    }
    forall rest | Named(host) && Bracketed(value, host, rest, port) ensures HostPort(value) == Ok((host, port)) {
      assert value[1..] == host + "]" + rest;
      SplitOnceAt(host, ']', rest);
      CheckedIff(host, if rest != [] && rest[0] == ':' then Some(rest[1..]) else None, host, port);
    }
  }

  lemma PlainIff(value: string, host: string, port: Option<nat>)
    requires value != [] && value[0] != '['
    ensures HostPort(value) == Ok((host, port)) <==>
      Named(host) && if ':' in value then exists text :: WithPort(value, host, text, port) else value == host && port.None?
  {
    hide RSplitOnce, CheckedHost, Port, Named;
    var split := RSplitOnce(value, ':');
    if ':' !in value {
      CheckedIff(value, None, host, port);
    } else {
      var (h, text) := split.value;
      CheckedIff(h, Some(text), host, port);
      if HostPort(value) == Ok((host, port)) {
        assert WithPort(value, host, text, port);
      }
      forall t | Named(host) && WithPort(value, host, t, port) ensures HostPort(value) == Ok((host, port)) {
        RSplitOnceAt(host, ':', t);
      }
    }
  }

  /** A Host value is taken exactly when it is a name, a name and a port, or an address in
      brackets with or without a port, and then as that. */
  lemma HostPortIff(value: string, host: string, port: Option<nat>)
    ensures HostPort(value) == Ok((host, port)) <==> HostMeans(value, host, port)
  {
    if value != [] {
      if value[0] == '[' {
        BracketIff(value, host, port);
      } else {
        PlainIff(value, host, port);
      }
    }
  }

  // ---------------------------------------------------------------- routed targets

  lemma {:induction false} TrimEndOfAt(p: string, c: char, tail: string)
    requires (p == [] || p[|p| - 1] != c) && forall i :: 0 <= i < |tail| ==> tail[i] == c
    ensures TrimEndOf(p + tail, c) == p
    decreases |tail|
  {
    if tail == [] {
      assert p + tail == p;
    } else {
      TrimEndOfAt(p, c, tail[..|tail| - 1]);
      assert (p + tail)[..|p + tail| - 1] == p + tail[..|tail| - 1];
    }
  }

  /** The prefix goes, slashes at its end or not; the root is left when nothing else is. */
  lemma PrefixStripped(p: string, slashes: string, rest: string)
    requires (p == [] || p[|p| - 1] != '/') && forall i :: 0 <= i < |slashes| ==> slashes[i] == '/'
    ensures StrippedTarget(p + rest, p + slashes) == if rest == "" then "/" else rest
  {
    TrimEndOfAt(p, '/', slashes);
    hide TrimEndOf;
    assert (p + rest)[|p|..] == rest;
  }

  /** A target without the prefix is left alone. */
  lemma OtherTarget(p: string, slashes: string, target: string)
    requires (p == [] || p[|p| - 1] != '/') && forall i :: 0 <= i < |slashes| ==> slashes[i] == '/'
    requires !(p <= target)
    ensures StrippedTarget(target, p + slashes) == target
  {
    TrimEndOfAt(p, '/', slashes);
    hide TrimEndOf;
  }
}
