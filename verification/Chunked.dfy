/** Chunked request bodies: the byte automaton that tracks the framing, and the
    grammar of section 7.1 of RFC 9112, as leniently as the reader takes it. */
module Chunked {
  import opened Text
  import opened Numerals

  const MAX_CHUNK_LINE: nat := 256
  const MAX_TRAILER_BYTES: nat := 16 * 1024

  datatype State =
    | SizeLine(line: string)
    | Data(remaining: nat)
    | DataEnd(seenCr: bool)
    | Trailers(line: string, consumed: nat)
    | Done

  const START: State := SizeLine("")

  /** The size a chunk-size line announces: hexadecimal digits before any extension. */
  function ChunkSize(line: string): (r: Option<nat>)
  {
    ParseUnsigned(Trim(Split(TrimEndOf(line, CR), ';')[0]), 16, U64)
  }

  /** Where the parts of a size line are: whitespace, an unsigned hexadecimal numeral for `n`,
      whitespace, and, after a semicolon, anything. */
  ghost predicate AnnouncesAt(line: string, n: nat, i: nat, j: nat, k: nat) {
    && i <= j <= k <= |line|
    && Spaces(line[..i]) && Unsigned(line[i..j], n, true) && Spaces(line[j..k])
    && (k == |line| || line[k] == ';')
  }

  /** The line announces a chunk of `n` bytes. A carriage return is whitespace. */
  ghost predicate Announces(line: string, n: nat) {
    n < 0x1_0000_0000_0000_0000 && exists i: nat, j: nat, k: nat :: AnnouncesAt(line, n, i, j, k)
  }

  lemma FirstPart(line: string)
    ensures Trim(Split(TrimEndOf(line, CR), ';')[0]) == Trim(line[..Find(line, ';')])
  {
    hide Trim, Split, TrimEndOf, Find;
    var t, p := TrimEndOf(line, CR), Find(line, ';');
    assert forall i :: 0 <= i < |t| ==> t[i] == line[i];
    if p < |line| {
      assert p < |t|;
      FindAt(t, ';', p);
      SplitFirst(t, ';', p);
      assert t[..p] == line[..p];
    } else {
      SplitSingle(t, ';');
      assert line[..p] == line;
      ReturnsTrimmed(line, t);
    }
  }

  lemma SplitFirst(s: string, c: char, p: nat)
    requires p < |s| && Find(s, c) == p
    ensures Split(s, c)[0] == s[..p]
  {
  }

  /** Carriage returns at the end are whitespace at the end. */
  lemma ReturnsTrimmed(line: string, t: string)
    requires |t| <= |line| && t == line[..|t|] && forall i :: |t| <= i < |line| ==> line[i] == CR
    ensures Trim(t) == Trim(line)
  {
    var i, j := TrimCore(t);
    hide Trim;
    assert IsSpace(CR);
    assert forall x :: 0 <= x < |t| ==> t[x] == line[x];
    assert Core(line, i, j);
    TrimIs(line, i, j);
    assert line[i..j] == t[i..j];
  }

  lemma UnsignedSolid(s: string, n: nat)
    requires Unsigned(s, n, true)
    ensures s != [] && !IsSpace(s[0]) && !IsSpace(s[|s| - 1]) && ';' !in s
  {
    var digits := if Numeral(s, n, true) then s else s[1..];
    NumeralEnds(digits, n, true);
    forall i | 0 <= i < |digits| ensures !IsSpace(digits[i]) && digits[i] != ';' {
      DigitMeans(digits[i], true);
    }
    assert digits != s ==> s == ['+'] + digits && !IsSpace('+');
  }

  /** The reader's size is the one the line announces. */
  lemma AnnouncesIff(line: string, n: nat)
    ensures ChunkSize(line) == Some(n) <==> Announces(line, n)
  {
    var w := line[..Find(line, ';')];
    FirstPart(line);
    ParseIff(Trim(w), n, true, U64);
    hide ParseUnsigned, Unsigned, Announces, Trim;
    if Unsigned(Trim(w), n, true) && n < U64 { TrimmedAnnounces(line, n, |w|, w); }
    if Announces(line, n) { AnnouncedTrims(line, n); }
  }

  lemma TrimmedAnnounces(line: string, n: nat, p: nat, w: string)
    requires p <= |line| && w == line[..p] && (p == |line| || line[p] == ';')
    requires Unsigned(Trim(w), n, true) && n < U64
    ensures Announces(line, n)
  {
    hide Trim, Unsigned, IsSpace;
    var i, j := TrimCore(w);
    assert forall x :: 0 <= x < p ==> line[x] == w[x];
    assert Spaces(line[..i]) && Spaces(line[j..p]);
    hide Core, Spaces;
    assert line[i..j] == w[i..j];
    assert AnnouncesAt(line, n, i, j, p);
  }

  lemma AnnouncedTrims(line: string, n: nat)
    requires Announces(line, n)
    ensures Unsigned(Trim(line[..Find(line, ';')]), n, true) && n < U64
  {
    hide Trim, Find, Unsigned, IsSpace;
    var i: nat, j: nat, k: nat :| AnnouncesAt(line, n, i, j, k);
    UnsignedSolid(line[i..j], n);
    NoSemicolon(line, n, i, j, k);
    FindAt(line, ';', k);
    var w := line[..k];
    assert w[i..j] == line[i..j];
    forall x | 0 <= x < i ensures IsSpace(w[x]) { assert line[..i][x] == w[x]; }
    forall x | j <= x < |w| ensures IsSpace(w[x]) { assert line[j..k][x - j] == w[x]; }
    assert w[i] == line[i..j][0] && w[j - 1] == line[i..j][j - 1 - i];
    TrimIs(w, i, j);
  }

  lemma NoSemicolon(line: string, n: nat, i: nat, j: nat, k: nat)
    requires AnnouncesAt(line, n, i, j, k)
    ensures forall x :: 0 <= x < k ==> line[x] != ';'
  {
    UnsignedSolid(line[i..j], n);
    hide Unsigned;
    forall x | 0 <= x < k ensures line[x] != ';' {
      if x < i { assert IsSpace(line[..i][x]); }
      else if x < j { assert line[i..j][x - i] == line[x]; }
      else { assert IsSpace(line[j..k][x - j]); }
    }
  }

  /** Print a size in hexadecimal, pad it, end it with carriage returns or extend it: the
      reader gets it back. */
  lemma PrintedSize(n: nat, upper: bool, pre: string, post: string, ext: string)
    requires n < 0x1_0000_0000_0000_0000 && Spaces(pre) && Spaces(post) && (ext == "" || ext[0] == ';')
    ensures ChunkSize(pre + Print(n, true, upper) + post + ext) == Some(n)
  {
    var num := Print(n, true, upper);
    var line := pre + num + post + ext;
    var i, j, k := |pre|, |pre + num|, |pre + num + post|;
    PrintIs(n, true, upper);
    hide Print, Numeral;
    assert line[..i] == pre && line[i..j] == num && line[j..k] == post;
    assert AnnouncesAt(line, n, i, j, k);
    AnnouncesIff(line, n);
  }

  predicate BlankTrailer(line: string) { line == "" || line == "\r" }

  /** One byte; `None` is a malformed message, or a byte after its end. */
  function Step(st: State, c: char): Option<State> {
    match st
    case SizeLine(line) =>
      if c == LF then
        match ChunkSize(line)
        case None => None
        case Some(n) => Some(if n == 0 then Trailers("", 0) else Data(n))
      else if |line| >= MAX_CHUNK_LINE then None
      else Some(SizeLine(line + [c]))
    case Data(remaining) =>
      if remaining == 0 then None
      else Some(if remaining == 1 then DataEnd(false) else Data(remaining - 1))
    case DataEnd(seenCr) =>
      if c == CR && !seenCr then Some(DataEnd(true))
      else if c == LF then Some(START)
      else None
    case Trailers(line, consumed) =>
      if consumed + 1 > MAX_TRAILER_BYTES then None
      else if c == LF then Some(if BlankTrailer(line) then Done else Trailers("", consumed + 1))
      else Some(Trailers(line + [c], consumed + 1))
    case Done => None
  }

  function Run(st: State, s: string): Option<State>
    decreases |s|
  {
    if s == [] then Some(st)
    else match Step(st, s[0])
      case Some(next) => Run(next, s[1..])
      case None => None
  }

  lemma {:induction false} RunAppend(st: State, a: string, b: string)
    ensures Run(st, a + b) == match Run(st, a) case Some(mid) => Run(mid, b) case None => None
    decreases |a|
  {
    hide Step;
    if a == [] {
      assert a + b == b;
    } else {
      assert (a + b)[1..] == a[1..] + b;
      var next := Step(st, a[0]);
      if next.Some? { RunAppend(next.value, a[1..], b); }
    }
  }

  /** A bulk read inside a chunk is as many single steps. */
  lemma {:induction false} RunData(n: nat, s: string)
    requires |s| <= n
    ensures Run(Data(n), s) == Some(if s != [] && |s| == n then DataEnd(false) else Data(n - |s|))
    decreases |s|
  {
    if |s| > 1 { RunData(n - 1, s[1..]); }
    if |s| == 1 { assert s[1..] == []; }
  }

  /** How many bytes of `s` the automaton accepts before it is done, fails or runs out. */
  function Accepts(st: State, s: string): (n: nat)
    ensures n <= |s|
    decreases |s|
  {
    if st.Done? || s == [] || Step(st, s[0]).None? then 0
    else 1 + Accepts(Step(st, s[0]).value, s[1..])
  }

  /** Where the automaton stops is determined by how it stops. */
  lemma {:induction false} AcceptsWhere(st: State, s: string, n: nat)
    requires n <= |s| && Run(st, s[..n]).Some?
    requires var last := Run(st, s[..n]).value; last.Done? || n == |s| || Step(last, s[n]).None?
    ensures Accepts(st, s) == n
    decreases n
  {
    hide Step;
    if n > 0 {
      assert s[..n][1..] == s[1..][..n - 1] && s[..n][0] == s[0];
      if st.Done? { DoneStuck(s[0]); }
      AcceptsWhere(Step(st, s[0]).value, s[1..], n - 1);
    } else {
      assert s[..0] == [];
    }
  }

  lemma DoneStuck(c: char)
    ensures Step(Done, c).None?
  {
  }

  lemma {:induction false} AcceptsRuns(st: State, s: string)
    ensures Run(st, s[..Accepts(st, s)]).Some?
    ensures var last := Run(st, s[..Accepts(st, s)]).value;
            last.Done? || Accepts(st, s) == |s| || Step(last, s[Accepts(st, s)]).None?
    decreases |s|
  {
    hide Step;
    var n := Accepts(st, s);
    if n > 0 {
      AcceptsRuns(Step(st, s[0]).value, s[1..]);
      assert s[..n][1..] == s[1..][..n - 1] && s[..n][0] == s[0];
    } else {
      assert s[..0] == [];
    }
  }

  // ---------------------------------------------------------------- grammar

  datatype Chunk = Chunk(line: string, data: string, cr: bool)

  datatype Message = Message(chunks: seq<Chunk>, last: string, trailers: seq<string>, cr: bool)

  function LineEnd(cr: bool): string { if cr then "\r\n" else "\n" }

  ghost predicate ValidChunk(c: Chunk) {
    LfFree(c.line) && |c.line| <= 256 && c.data != [] && Announces(c.line, |c.data|)
  }

  predicate ValidTrailer(t: string) { LfFree(t) && !BlankTrailer(t) }

  ghost predicate ValidMessage(m: Message) {
    && (forall i :: 0 <= i < |m.chunks| ==> ValidChunk(m.chunks[i]))
    && LfFree(m.last) && |m.last| <= 256 && Announces(m.last, 0)
    && (forall i :: 0 <= i < |m.trailers| ==> ValidTrailer(m.trailers[i]))
    && |TrailerText(m.trailers, m.cr)| <= 16384
  }

  function ChunkText(c: Chunk): string { c.line + "\n" + (c.data + LineEnd(c.cr)) }

  function TrailerText(ts: seq<string>, cr: bool): string {
    if ts == [] then LineEnd(cr) else ts[0] + "\n" + TrailerText(ts[1..], cr)
  }

  function Encode(m: Message): string
    decreases |m.chunks|
  {
    if m.chunks == [] then m.last + "\n" + TrailerText(m.trailers, m.cr)
    else ChunkText(m.chunks[0]) + Encode(m.(chunks := m.chunks[1..]))
  }

  // ---------------------------------------------------------------- reading a message

  ghost function AfterSize(line: string): Option<State> {
    match ChunkSize(line)
    case None => None
    case Some(n) => Some(if n == 0 then Trailers("", 0) else Data(n))
  }

  /** A size line is read up to its line feed, if it is short enough. */
  lemma {:induction false} RunLine(line: string, more: string)
    requires LfFree(more) && |line| <= MAX_CHUNK_LINE
    ensures Run(SizeLine(line), more + "\n") == if |line + more| <= MAX_CHUNK_LINE then AfterSize(line + more) else None
    decreases |more|
  {
    hide ChunkSize;
    var s := more + "\n";
    if more == [] {
      assert line + more == line && s == "\n";
      assert s[0] == LF && s[1..] == [];
      assert Run(SizeLine(line), s) == match Step(SizeLine(line), s[0]) case Some(next) => Run(next, s[1..]) case None => None;
    } else {
      assert s[1..] == more[1..] + "\n" && s[0] == more[0];
      if |line| < MAX_CHUNK_LINE {
        RunLine(line + [more[0]], more[1..]);
        assert line + [more[0]] + more[1..] == line + more;
      }
    }
  }

  lemma RunChunkEnd(cr: bool)
    ensures Run(DataEnd(false), LineEnd(cr)) == Some(START)
  {
    if cr {
      assert "\r\n"[1..] == "\n" && "\n"[1..] == "";
      assert Run(DataEnd(true), "\n") == Some(START);
    } else {
      assert "\n"[1..] == "";
    }
  }

  lemma RunChunk(c: Chunk)
    requires ValidChunk(c)
    ensures Run(START, ChunkText(c)) == Some(START)
  {
    hide ChunkSize, Run, Step, Announces;
    AnnouncesIff(c.line, |c.data|);
    RunLine("", c.line);
    assert "" + c.line == c.line;
    RunAppend(START, c.line + "\n", c.data + LineEnd(c.cr));
    RunAppend(Data(|c.data|), c.data, LineEnd(c.cr));
    RunData(|c.data|, c.data);
    RunChunkEnd(c.cr);
  }

  /** A trailer line is read up to its line feed, if the section stays short enough. */
  lemma {:induction false} RunTrailer(line: string, consumed: nat, more: string)
    requires LfFree(more) && consumed + |more| + 1 <= MAX_TRAILER_BYTES
    ensures Run(Trailers(line, consumed), more + "\n") ==
      Some(if BlankTrailer(line + more) then Done else Trailers("", consumed + |more| + 1))
    decreases |more|
  {
    hide BlankTrailer;
    var s := more + "\n";
    if more == [] {
      assert line + more == line && s == "\n" && s[1..] == [];
    } else {
      assert s[1..] == more[1..] + "\n" && s[0] == more[0];
      RunTrailer(line + [more[0]], consumed + 1, more[1..]);
      assert line + [more[0]] + more[1..] == line + more;
    }
  }

  lemma {:induction false} RunTrailers(ts: seq<string>, cr: bool, consumed: nat)
    requires forall i :: 0 <= i < |ts| ==> ValidTrailer(ts[i])
    requires consumed + |TrailerText(ts, cr)| <= MAX_TRAILER_BYTES
    ensures Run(Trailers("", consumed), TrailerText(ts, cr)) == Some(Done)
    decreases |ts|
  {
    hide Run, Step;
    if ts == [] {
      var end := if cr then "\r" else "";
      assert LineEnd(cr) == end + "\n" && "" + end == end;
      RunTrailer("", consumed, end);
    } else {
      RunAppend(Trailers("", consumed), ts[0] + "\n", TrailerText(ts[1..], cr));
      RunTrailer("", consumed, ts[0]);
      assert "" + ts[0] == ts[0];
      RunTrailers(ts[1..], cr, consumed + |ts[0]| + 1);
    }
  }

  /** Every well-formed message within the limits is read to its end. */
  lemma {:induction false} EncodedRuns(m: Message)
    requires ValidMessage(m)
    ensures Run(START, Encode(m)) == Some(Done)
    decreases |m.chunks|
  {
    hide Run, Step, ChunkSize, ChunkText, BlankTrailer, Announces;
    if m.chunks == [] {
      AnnouncesIff(m.last, 0);
      RunAppend(START, m.last + "\n", TrailerText(m.trailers, m.cr));
      RunLine("", m.last);
      assert "" + m.last == m.last;
      RunTrailers(m.trailers, m.cr, 0);
    } else {
      var rest := m.(chunks := m.chunks[1..]);
      RunAppend(START, ChunkText(m.chunks[0]), Encode(rest));
      RunChunk(m.chunks[0]);
      EncodedRuns(rest);
    }
  }

  // ---------------------------------------------------------------- only well-formed messages are read to the end

  /** A run that leaves the line states passes a line feed. */
  lemma {:induction false} LineFeedOccurs(st: State, s: string)
    requires st.SizeLine? || st.Trailers?
    requires Run(st, s) == Some(Done)
    ensures Find(s, LF) < |s|
    decreases |s|
  {
    hide ChunkSize;
    if s != [] && s[0] != LF { LineFeedOccurs(Step(st, s[0]).value, s[1..]); }
  }

  lemma SplitAt(s: string, p: nat)
    requires p < |s| && s[p] == LF
    ensures s == s[..p] + "\n" + s[p + 1..]
  {
    assert s[..p] + "\n" == s[..p + 1];
  }

  lemma SplitAtLf(s: string)
    requires Find(s, LF) < |s|
    ensures var p := Find(s, LF); LfFree(s[..p]) && s == s[..p] + "\n" + s[p + 1..]
  {
    hide Find;
    SplitAt(s, Find(s, LF));
  }

  lemma LastOnly(m: Message)
    requires m.chunks == [] && LfFree(m.last) && |m.last| <= 256 && Announces(m.last, 0)
    requires forall i :: 0 <= i < |m.trailers| ==> ValidTrailer(m.trailers[i])
    requires |TrailerText(m.trailers, m.cr)| <= MAX_TRAILER_BYTES
    ensures ValidMessage(m) && Encode(m) == m.last + "\n" + TrailerText(m.trailers, m.cr)
  {
  }

  lemma MessageCons(c: Chunk, m: Message)
    requires ValidChunk(c) && ValidMessage(m)
    ensures var m' := m.(chunks := [c] + m.chunks);
            ValidMessage(m') && Encode(m') == ChunkText(c) + Encode(m)
  {
    hide ValidChunk, ChunkText, ChunkSize, LfFree, ValidTrailer, TrailerText;
    var m' := m.(chunks := [c] + m.chunks);
    assert m'.(chunks := m'.chunks[1..]) == m;
  }

  lemma {:induction false} DecodeTrailers(consumed: nat, s: string) returns (ts: seq<string>, cr: bool)
    requires Run(Trailers("", consumed), s) == Some(Done)
    ensures s == TrailerText(ts, cr)
    ensures forall i :: 0 <= i < |ts| ==> ValidTrailer(ts[i])
    ensures consumed + |s| <= MAX_TRAILER_BYTES
    decreases |s|
  {
    hide Run, Step;
    LineFeedOccurs(Trailers("", consumed), s);
    SplitAtLf(s);
    var p := Find(s, LF);
    var line, rest := s[..p], s[p + 1..];
    RunAppend(Trailers("", consumed), line + "\n", rest);
    TrailerBound("", consumed, line);
    RunTrailer("", consumed, line);
    assert "" + line == line;
    if BlankTrailer(line) {
      DoneEnds(rest);
      ts, cr := [], line == "\r";
      assert s == LineEnd(cr);
    } else {
      ts, cr := DecodeTrailers(consumed + |line| + 1, rest);
      ts := [line] + ts;
      assert ts[1..] == ts[1..] && TrailerText(ts, cr) == line + "\n" + TrailerText(ts[1..], cr);
    }
  }

  lemma DoneEnds(s: string)
    requires Run(Done, s).Some?
    ensures s == []
  {
  }

  lemma {:induction false} TrailerBound(line: string, consumed: nat, more: string)
    requires LfFree(more) && Run(Trailers(line, consumed), more + "\n").Some?
    ensures consumed + |more| + 1 <= MAX_TRAILER_BYTES
    decreases |more|
  {
    hide BlankTrailer;
    var s := more + "\n";
    if more == [] {
      assert s == "\n" && s[0] == LF;
    } else {
      assert s[1..] == more[1..] + "\n" && s[0] == more[0];
      TrailerBound(line + [more[0]], consumed + 1, more[1..]);
    }
  }

  lemma DecodeChunkEnd(s: string) returns (cr: bool)
    requires Run(DataEnd(false), s) == Some(Done)
    ensures LineEnd(cr) <= s && Run(START, s[|LineEnd(cr)|..]) == Some(Done)
  {
    hide ChunkSize;
    cr := s[0] == CR;
    if cr { assert s[1..][1..] == s[2..]; assert s[1..][0] == s[1] == LF; }
  }

  lemma DataLong(n: nat, s: string)
    requires n > 0 && Run(Data(n), s) == Some(Done)
    ensures |s| > n && Run(DataEnd(false), s[n..]) == Some(Done)
  {
    hide Run, Step;
    if |s| < n {
      RunData(n, s);
    } else {
      RunData(n, s[..n]);
      RunAppend(Data(n), s[..n], s[n..]);
      assert s[..n] + s[n..] == s;
      if |s| == n { NotDone(); }
    }
  }

  lemma NotDone()
    ensures Run(DataEnd(false), []) != Some(Done)
  {
  }

  /** The first line of a complete message, and what the automaton reads after it. */
  lemma DecodeLine(s: string) returns (line: string, rest: string)
    requires Run(START, s) == Some(Done)
    ensures s == line + "\n" + rest && LfFree(line) && |line| <= MAX_CHUNK_LINE
    ensures ChunkSize(line).Some? && Run(AfterSize(line).value, rest) == Some(Done)
  {
    hide Run, Step, ChunkSize, Find;
    LineFeedOccurs(START, s);
    SplitAtLf(s);
    line, rest := s[..Find(s, LF)], s[Find(s, LF) + 1..];
    RunAppend(START, line + "\n", rest);
    RunLine("", line);
    assert "" + line == line;
  }

  /** The data of a chunk, its line end, and what follows. */
  lemma DecodeChunk(n: nat, rest: string) returns (data: string, cr: bool, after: string)
    requires n > 0 && Run(Data(n), rest) == Some(Done)
    ensures rest == data + LineEnd(cr) + after && |data| == n
    ensures Run(START, after) == Some(Done)
  {
    hide Run, Step;
    DataLong(n, rest);
    data := rest[..n];
    cr := DecodeChunkEnd(rest[n..]);
    after := rest[n..][|LineEnd(cr)|..];
  }

  lemma {:induction false} Decode(s: string) returns (m: Message)
    requires Run(START, s) == Some(Done)
    ensures ValidMessage(m) && Encode(m) == s
    decreases |s|
  {
    hide Run, Step, ChunkSize, Encode, ValidMessage, LfFree, Announces;
    var line, rest := DecodeLine(s);
    var n := ChunkSize(line).value;
    AnnouncesIff(line, n);
    if n == 0 {
      var ts, cr := DecodeTrailers(0, rest);
      m := Message([], line, ts, cr);
      LastOnly(m);
    } else {
      var data, cr, after := DecodeChunk(n, rest);
      var m' := Decode(after);
      var c := Chunk(line, data, cr);
      m := m'.(chunks := [c] + m'.chunks);
      MessageCons(c, m');
      assert s == ChunkText(c) + after;
    }
  }

  /** The automaton ends exactly at the end of the well-formed messages. */
  lemma DoneIffWellFormed(s: string)
    ensures Run(START, s) == Some(Done) <==> exists m :: ValidMessage(m) && Encode(m) == s
  {
    hide Run, Step, ValidMessage, Encode;
    if Run(START, s) == Some(Done) {
      var m := Decode(s);
    }
    forall m | ValidMessage(m) && Encode(m) == s ensures Run(START, s) == Some(Done) { EncodedRuns(m); }
  }

  /** Bytes after a message do not change where it ends. */
  lemma EncodedEnds(m: Message, rest: string)
    requires ValidMessage(m)
    ensures Accepts(START, Encode(m) + rest) == |Encode(m)|
  {
    hide Run, Step, ValidMessage, Encode;
    EncodedRuns(m);
    var s := Encode(m) + rest;
    assert s[..|Encode(m)|] == Encode(m);
    AcceptsWhere(START, s, |Encode(m)|);
  }
}
