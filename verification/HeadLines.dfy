/** The two scanners that look at a message head: the search for the blank line
    that ends it, and the line splitter every header loop uses. */
module HeadLines {
  import opened Text

  /** `b[..n]` ends in a line feed followed by an empty line (`\n` or `\r\n`). */
  predicate Terminates(b: string, n: int) {
    || (2 <= n <= |b| && b[n - 2] == LF && b[n - 1] == LF)
    || (3 <= n <= |b| && b[n - 3] == LF && b[n - 2] == CR && b[n - 1] == LF)
  }

  ghost predicate FirstEnd(b: string, n: int) {
    Terminates(b, n) && forall m :: m < n ==> !Terminates(b, m)
  }

  /** Length of an empty line at the start of `t`, 0 when `t` starts with none. */
  function BlankLine(t: string): nat {
    if |t| >= 1 && t[0] == LF then 1
    else if |t| >= 2 && t[0] == CR && t[1] == LF then 2
    else 0
  }

  /** Length of the head including its blank line, found line by line. */
  function HeadEnd(b: string): (r: Option<nat>)
    ensures r.Some? ==> r.value <= |b|
    decreases |b|, 0
  {
    var p := Find(b, LF);
    if p == |b| then None else AfterLine(p + 1, b[p + 1..])
  }

  /** The head end of a text whose first line, line feed included, has length `n`
      and is followed by `t`. */
  function AfterLine(n: nat, t: string): (r: Option<nat>)
    ensures r.Some? ==> n <= r.value <= n + |t|
    decreases |t|, 1
  {
    if BlankLine(t) > 0 then Some(n + BlankLine(t))
    else match HeadEnd(t)
      case Some(m) => Some(n + m)
      case None => None
  }

  /** The line-by-line search finds the first terminator of the byte string. */
  lemma {:induction false} HeadEndIsFirst(b: string)
    ensures HeadEnd(b).Some? ==> FirstEnd(b, HeadEnd(b).value)
    ensures HeadEnd(b).None? ==> forall n :: !Terminates(b, n)
    decreases |b|
  {
    var p := Find(b, LF);
    if p < |b| {
      var t := b[p + 1..];
      HeadEndIsFirst(t);
      // a terminator of `b` is its first line followed by a blank line, or one of `t`
      assert forall n :: Terminates(b, n) <==>
          (n == p + 1 + BlankLine(t) && BlankLine(t) > 0) || Terminates(t, n - (p + 1)) by {
        TerminatorsShift(b, p, t);
      }
      if BlankLine(t) > 0 {
        assert forall m :: Terminates(t, m) ==> m >= BlankLine(t);
      }
    }
  }

  lemma TerminatorsShift(b: string, p: nat, t: string)
    requires p < |b| && b[p] == LF && (forall i :: 0 <= i < p ==> b[i] != LF) && t == b[p + 1..]
    ensures forall n :: Terminates(b, n) <==>
        (n == p + 1 + BlankLine(t) && BlankLine(t) > 0) || Terminates(t, n - (p + 1))
  {
    forall n
      ensures Terminates(b, n) <==>
        (n == p + 1 + BlankLine(t) && BlankLine(t) > 0) || Terminates(t, n - (p + 1))
    {
      assert forall i :: 0 <= i < |t| ==> t[i] == b[p + 1 + i];
    }
  }

  lemma FirstEndUnique(b: string, n: int)
    requires FirstEnd(b, n)
    ensures HeadEnd(b) == Some(n)
  {
    HeadEndIsFirst(b);
  }

  /** What a prefix answers is what the whole stream answers: reading more never
      moves a head end, and a head end is seen as soon as its last byte is there. */
  lemma HeadEndOfPrefix(b: string, k: nat)
    requires k <= |b|
    ensures HeadEnd(b[..k]) == if HeadEnd(b).Some? && HeadEnd(b).value <= k then HeadEnd(b) else None
  {
    HeadEndIsFirst(b);
    HeadEndIsFirst(b[..k]);
    assert forall n :: n <= k ==> (Terminates(b[..k], n) <==> Terminates(b, n));
    assert forall n :: Terminates(b[..k], n) ==> n <= k;
  }

  /** `find_head_end`: a left-to-right scan over byte indexes. */
  method FindHeadEnd(b: string) returns (r: Option<nat>)
    ensures r == HeadEnd(b)
  {
    var index := 0;
    while index < |b|
      invariant 0 <= index <= |b|
      invariant forall n :: Terminates(b, n) ==> n >= index + 2
      invariant 0 < index < |b| - 1 && b[index - 1] == LF && b[index] == CR ==> b[index + 1] != LF
    {
      if b[index] == LF {
        if index + 1 < |b| && b[index + 1] == LF {
          FirstEndUnique(b, index + 2);
          return Some(index + 2);
        }
        if index + 2 < |b| && b[index + 1] == CR && b[index + 2] == LF {
          FirstEndUnique(b, index + 3);
          return Some(index + 3);
        }
      }
      index := index + 1;
    }
    HeadEndIsFirst(b);
    return None;
  }

  function StripCr(line: string): string {
    if line != [] && line[|line| - 1] == CR then line[..|line| - 1] else line
  }

  /** `split('\n')` with one trailing `\r` removed from every piece. */
  function Lines(s: string): (ls: seq<string>)
    ensures |ls| >= 1
    ensures forall i :: 0 <= i < |ls| ==> LfFree(ls[i])
    decreases |s|
  {
    var p := Find(s, LF);
    if p == |s| then [StripCr(s)] else [StripCr(s[..p])] + Lines(s[p + 1..])
  }

  /** The lines before the first empty one. */
  function UntilBlank(ls: seq<string>): (r: seq<string>)
    ensures r <= ls
    ensures forall i :: 0 <= i < |r| ==> r[i] != []
    ensures |r| < |ls| ==> ls[|r|] == []
  {
    if ls == [] || ls[0] == [] then [] else [ls[0]] + UntilBlank(ls[1..])
  }

  function RequestLine(head: string): (line: string)
    ensures LfFree(line)
  {
    Lines(head)[0]
  }

  function HeaderLines(head: string): (ls: seq<string>)
    ensures forall i :: 0 <= i < |ls| ==> LfFree(ls[i]) && ls[i] != []
  {
    UntilBlank(Lines(head)[1..])
  }

  /** The wire form of a head made of the given lines. */
  function Render(ls: seq<string>): string {
    if ls == [] then "\r\n" else ls[0] + "\r\n" + Render(ls[1..])
  }

  /** The lines alone, without the blank line that ends a head. */
  function Joined(ls: seq<string>): string {
    if ls == [] then "" else Joined(ls[..|ls| - 1]) + ls[|ls| - 1] + "\r\n"
  }

  lemma {:induction false} JoinedRenders(ls: seq<string>, rest: seq<string>)
    ensures Joined(ls) + Render(rest) == Render(ls + rest)
    decreases |ls|
  {
    if ls == [] {
      assert ls + rest == rest;
    } else {
      var k := |ls| - 1;
      JoinedRenders(ls[..k], [ls[k]] + rest);
      assert ls[..k] + ([ls[k]] + rest) == ls + rest;
      assert ([ls[k]] + rest)[1..] == rest;
    }
  }

  ghost predicate Printable(ls: seq<string>) {
    && |ls| >= 1
    && (forall i :: 0 <= i < |ls| ==> LfFree(ls[i]))
    && (forall i :: 1 <= i < |ls| ==> ls[i] != [])
  }

  lemma HeadEndStep(line: string, t: string)
    requires LfFree(line)
    ensures HeadEnd(line + "\n" + t) == AfterLine(|line| + 1, t)
  {
    var b := line + "\n" + t;
    FindAt(b, LF, |line|);
    assert b[|line| + 1..] == t;
  }

  lemma LinesStep(line: string, t: string)
    requires LfFree(line)
    ensures Lines(line + "\n" + t) == [StripCr(line)] + Lines(t)
  {
    var b := line + "\n" + t;
    FindAt(b, LF, |line|);
    assert b[|line| + 1..] == t && b[..|line|] == line;
  }

  lemma CrLfLine(line: string, rest: string)
    requires LfFree(line)
    ensures line + "\r\n" + rest == (line + "\r") + "\n" + rest
    ensures LfFree(line + "\r") && StripCr(line + "\r") == line
  {
    assert "\r\n" == "\r" + "\n";
  }

  /** Printed lines end exactly where the printer ended them, whatever follows. */
  lemma {:induction false} RenderEnds(ls: seq<string>, body: string)
    requires Printable(ls)
    ensures HeadEnd(Render(ls) + body) == Some(|Render(ls)|)
    decreases |ls|
  {
    hide HeadEnd, LfFree;
    var rest := Render(ls[1..]) + body;
    assert Render(ls) + body == ls[0] + "\r\n" + rest;
    CrLfLine(ls[0], rest);
    HeadEndStep(ls[0] + "\r", rest);
    if |ls| > 1 {
      NotBlank(ls[1], Render(ls[1..][1..]) + body);
      assert rest == ls[1] + "\r\n" + (Render(ls[1..][1..]) + body);
      RenderEnds(ls[1..], body);
    } else {
      assert rest == "\r\n" + body;
    }
  }

  lemma NotBlank(line: string, rest: string)
    requires LfFree(line) && line != []
    ensures BlankLine(line + "\r\n" + rest) == 0
  {
    var t := line + "\r\n" + rest;
    assert t[0] == line[0] && t[1] == (if |line| > 1 then line[1] else CR);
  }

  /** Splitting printed lines gives the lines back, then the blank line. */
  lemma {:induction false} LinesOfRender(ls: seq<string>)
    requires forall i :: 0 <= i < |ls| ==> LfFree(ls[i])
    ensures Lines(Render(ls)) == ls + ["", ""]
    decreases |ls|
  {
    hide Lines, LfFree;
    if ls == [] {
      LinesOfNothing();
      CrLfLine("", "");
      LinesStep("\r", "");
      assert "" + "\r" == "\r" && "\r" + "\n" + "" == "\r\n";
    } else {
      var rest := Render(ls[1..]);
      CrLfLine(ls[0], rest);
      LinesStep(ls[0] + "\r", rest);
      LinesOfRender(ls[1..]);
      assert ls == [ls[0]] + ls[1..];
    }
  }

  lemma LinesOfNothing()
    ensures Lines("") == [""] && LfFree("") && LfFree("\r")
  {
  }

  lemma {:induction false} UntilBlankAppend(ls: seq<string>, rest: seq<string>)
    requires forall i :: 0 <= i < |ls| ==> ls[i] != []
    requires rest != [] && rest[0] == []
    ensures UntilBlank(ls + rest) == ls
  {
    if ls != [] {
      assert (ls + rest)[1..] == ls[1..] + rest;
      UntilBlankAppend(ls[1..], rest);
    }
  }

  /** Print, then read: request line and header lines survive, and the head ends
      before the body. */
  lemma RenderRoundTrip(ls: seq<string>, body: string)
    requires Printable(ls)
    ensures HeadEnd(Render(ls) + body) == Some(|Render(ls)|)
    ensures RequestLine(Render(ls)) == ls[0]
    ensures HeaderLines(Render(ls)) == ls[1..]
  {
    RenderEnds(ls, body);
    LinesOfRender(ls);
    assert (ls + ["", ""])[1..] == ls[1..] + ["", ""];
    UntilBlankAppend(ls[1..], ["", ""]);
  }
}
