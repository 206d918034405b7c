/** Bodies read up to their end, writers that queue what they accept, and the pipe
    between them. */
module Relay {
  import opened Text
  import opened ConnStreams
  import HttpHeads
  import Chunked

  /** Number of bytes of `s` that belong to a body framed this way. */
  function BodyLength(framing: HttpHeads.Framing, s: string): (n: nat)
    ensures n <= |s|
  {
    match framing
    case Length(n) => if n <= |s| then n else |s|
    case Chunked => Chunked.Accepts(Chunked.START, s)
  }

  /** `body` is a whole body: of the announced length, or a chunked message up to its end. */
  ghost predicate Complete(framing: HttpHeads.Framing, body: string) {
    match framing
    case Length(n) => |body| == n
    case Chunked => Chunked.Run(Chunked.START, body) == Some(Chunked.Done)
  }

  datatype Mode = Raw | Take(remaining: nat) | Framed(state: Chunked.State)

  datatype Outcome = Bytes(bytes: string) | Failed

  /** Reading `bytes` takes a reader from one mode to the other. */
  ghost predicate Ran(before: Mode, bytes: string, after: Mode) {
    && (before.Raw? <==> after.Raw?)
    && (before.Framed? <==> after.Framed?)
    && (before.Framed? ==> Chunked.Run(before.state, bytes) == Some(after.state))
  }

  /** What a relay reads from: a connection as it is, or bounded by the request body
      through `take(length)` or `ChunkedBodyReader`. */
  class BodyReader {
    const client: ConnStream
    var mode: Mode

    ghost predicate Valid()
      reads this, client
    {
      client.Valid() && (mode.Framed? && mode.state.Data? ==> mode.state.remaining > 0)
    }

    /** The part of the connection this reader will deliver. */
    ghost function Ahead(): string
      requires Valid()
      reads this, client
    {
      var s := client.Contents();
      match mode
      case Raw => s
      case Take(n) => s[..if n <= |s| then n else |s|]
      case Framed(st) => s[..Chunked.Accepts(st, s)]
    }

    constructor (client: ConnStream, framing: HttpHeads.Framing)
      requires client.Valid()
      ensures Valid() && this.client == client
      ensures Ahead() == client.Contents()[..BodyLength(framing, client.Contents())]
      ensures mode == match framing case Length(n) => Take(n) case Chunked => Framed(Chunked.START)
    {
      this.client := client;
      mode := match framing case Length(n) => Take(n) case Chunked => Framed(Chunked.START);
    }

    constructor Whole(client: ConnStream)
      requires client.Valid()
      ensures Valid() && this.client == client && mode == Raw && Ahead() == client.Contents()
    {
      this.client := client;
      mode := Raw;
    }

    /** `poll_read`: payload in bulk, framing bytes one at a time. What it returns is
        what it consumed, and it never goes past the end of the body; it fails on a
        malformed byte or on an end of input inside the body, and then nothing was
        left to deliver. */
    method Read(room: nat) returns (r: Outcome)
      requires Valid()
      modifies this, client
      ensures Valid()
      ensures r.Bytes? ==>
        && r.bytes + client.Contents() == old(client.Contents())
        && r.bytes + Ahead() == old(Ahead())
        && |r.bytes| <= room
        && (r.bytes == [] ==> room == 0 || old(Ahead()) == [])
      ensures r.Failed? ==> old(Ahead()) == [] && old(mode).Framed? && old(mode).state != Chunked.Done
      ensures r.Bytes? ==> Ran(old(mode), r.bytes, mode)
      ensures mode.Framed? && r.Bytes? && room > 0 ==> (r.bytes == [] <==> old(mode).state == Chunked.Done)
      ensures r.Bytes? && r.bytes == [] ==> mode == old(mode)
      ensures |client.Contents()| <= |old(client.Contents())|
    {
      hide Chunked.Accepts, Chunked.Step;
      if room == 0 { assert "" + Ahead() == Ahead(); return Bytes(""); }
      match mode
      case Raw =>
        var got := client.Read(room);
        r := Bytes(got);
      case Take(n) =>
        r := ReadTake(n, room);
      case Framed(st) =>
        r := ReadFramed(st, room);
    }

    method ReadTake(n: nat, room: nat) returns (r: Outcome)
      requires Valid() && mode == Take(n) && room > 0
      modifies this, client
      ensures Valid() && mode.Take? && r.Bytes?
      ensures r.bytes + client.Contents() == old(client.Contents()) && r.bytes + Ahead() == old(Ahead())
      ensures |r.bytes| <= room && (r.bytes == [] ==> old(Ahead()) == [] && mode == old(mode))
    {
      if n == 0 { return Bytes(""); }
      ghost var s := client.Contents();
      var got := client.Read(if n < room then n else room);
      mode := Take(n - |got|);
      assert s == got + client.Contents();
      r := Bytes(got);
    }

    method ReadFramed(st: Chunked.State, room: nat) returns (r: Outcome)
      requires Valid() && mode == Framed(st) && room > 0
      modifies this, client
      ensures Valid() && mode.Framed?
      ensures r.Bytes? ==>
        && r.bytes + client.Contents() == old(client.Contents()) && r.bytes + Ahead() == old(Ahead())
        && |r.bytes| <= room && (r.bytes == [] ==> old(Ahead()) == []) && (r.bytes == [] <==> st == Chunked.Done)
      ensures r.Bytes? ==> Chunked.Run(st, r.bytes) == Some(mode.state)
      ensures r.Bytes? && r.bytes == [] ==> mode == old(mode)
      ensures r.Failed? ==> old(Ahead()) == [] && st != Chunked.Done
      ensures |client.Contents()| <= |old(client.Contents())|
    {
      hide Chunked.Step, Chunked.Run, Chunked.Accepts;
      ghost var s := client.Contents();
      AcceptsStart(st, s);
      if st == Chunked.Done {
        NothingRuns(st);
        return Bytes("");
      }
      var want := if st.Data? then (if st.remaining < room then st.remaining else room) else 1;
      var got := client.Read(if want < 4096 then want else 4096);
      assert s == got + client.Contents();
      if got == [] { return Failed; }
      assert got[0] == s[0];
      var next: Option<Chunked.State>;
      if st.Data? {
        BulkStep(st.remaining, got);
        next := Some(if |got| == st.remaining then Chunked.DataEnd(false) else Chunked.Data(st.remaining - |got|));
      } else {
        SingleStep(st, got[0]);
        assert got == [got[0]];
        next := Chunked.Step(st, got[0]);
      }
      if next.None? {
        StepFails(st, s);
        return Failed;
      }
      AcceptsAfter(st, got, client.Contents());
      StepShape(st, got[0]);
      mode := Framed(next.value);
      r := Bytes(got);
    }
  }

  lemma AcceptsStart(st: Chunked.State, s: string)
    ensures st == Chunked.Done || s == [] ==> Chunked.Accepts(st, s) == 0
  {
  }

  lemma NothingRuns(st: Chunked.State)
    ensures Chunked.Run(st, "") == Some(st)
  {
  }

  lemma StepFails(st: Chunked.State, s: string)
    requires s != [] && Chunked.Step(st, s[0]).None?
    ensures Chunked.Accepts(st, s) == 0
  {
  }

  lemma SingleStep(st: Chunked.State, c: char)
    ensures Chunked.Run(st, [c]) == Chunked.Step(st, c)
  {
    assert [c][1..] == [];
  }

  lemma BulkStep(n: nat, got: string)
    requires 0 < |got| <= n
    ensures Chunked.Run(Chunked.Data(n), got) ==
      Some(if |got| == n then Chunked.DataEnd(false) else Chunked.Data(n - |got|))
  {
    Chunked.RunData(n, got);
  }

  lemma StepShape(st: Chunked.State, c: char)
    ensures var next := Chunked.Step(st, c);
            next.Some? && next.value.Data? && !st.Data? ==> next.value.remaining > 0
  {
  }

  /** Bytes the automaton gets through are bytes it accepts first. */
  lemma {:induction false} AcceptsAfter(st: Chunked.State, a: string, b: string)
    requires Chunked.Run(st, a).Some?
    ensures Chunked.Accepts(st, a + b) == |a| + Chunked.Accepts(Chunked.Run(st, a).value, b)
    decreases |a|
  {
    hide Chunked.Step;
    if a == [] {
      assert a + b == b;
    } else {
      assert (a + b)[1..] == a[1..] + b;
      Chunked.DoneStuck(a[0]);
      AcceptsAfter(Chunked.Step(st, a[0]).value, a[1..], b);
    }
  }

  // ---------------------------------------------------------------- writers

  /** A writer that may keep accepted bytes to itself until it is flushed, like a TLS
      session; `keepOpen` says that it is wrapped in `KeepWriteOpen`, which turns a
      shutdown into a flush. Failures can happen at any call. */
  class BufferingWriter {
    var delivered: string
    var queued: string
    var closed: bool
    var keepOpen: bool

    ghost function Accepted(): string
      reads this`delivered, this`queued
    {
      delivered + queued
    }

    constructor ()
      ensures delivered == "" && queued == "" && !closed && !keepOpen
    {
      delivered, queued, closed, keepOpen := "", "", false, false;
    }

    method WriteAll(bytes: string) returns (ok: bool)
      modifies this`delivered, this`queued
      ensures ok ==> Accepted() == old(Accepted()) + bytes
      ensures !ok ==> exists k :: 0 <= k <= |bytes| && Accepted() == old(Accepted()) + bytes[..k]
      ensures old(delivered) <= delivered
    {
      var taken :| 0 <= taken <= |bytes|;
      ok := *;
      if ok { taken := |bytes|; }
      var all := queued + bytes[..taken];
      assert ok ==> bytes[..taken] == bytes;
      var sent :| 0 <= sent <= |all|;
      delivered := delivered + all[..sent];
      queued := all[sent..];
      assert delivered + queued == old(delivered) + all;
    }

    method Flush() returns (ok: bool)
      modifies this`delivered, this`queued
      ensures Accepted() == old(Accepted()) && (ok ==> queued == "")
      ensures old(delivered) <= delivered
    {
      var sent :| 0 <= sent <= |queued|;
      ok := *;
      if ok { sent := |queued|; }
      delivered := delivered + queued[..sent];
      queued := queued[sent..];
    }

    method Shutdown() returns (ok: bool)
      modifies this`delivered, this`queued, this`closed
      ensures Accepted() == old(Accepted()) && (ok ==> queued == "")
      ensures closed == (old(closed) || (ok && !keepOpen))
    {
      ok := Flush();
      if ok && !keepOpen { closed := true; }
    }
  }

  // ---------------------------------------------------------------- the pipe

  /** Why a pipe stopped: a clean end of its reader, a malformed body, a connection
      error while reading, or a failed write or flush. */
  datatype PipeEnd = EndOfInput | Malformed | ReadFailed | WriteFailed

  /** Where a pipe began: what its reader was to deliver, what the connection held, and
      what the writer had accepted. */
  datatype Start = Start(mode: Mode, ahead: string, contents: string, accepted: string)

  /** How far a pipe has come: `copied` is both read and accepted by the writer. */
  ghost predicate Moved(start: Start, copied: string, mode: Mode, ahead: string, contents: string, accepted: string) {
    && Ran(start.mode, copied, mode)
    && start.ahead == copied + ahead && start.contents == copied + contents && accepted == start.accepted + copied
  }

  /** What holds once a pipe has stopped for the reason `end`. */
  ghost predicate Stopped(start: Start, end: PipeEnd, contents: string, accepted: string) {
    && start.accepted <= accepted <= start.accepted + start.ahead
    && (end == EndOfInput || end == Malformed ==> accepted == start.accepted + start.ahead)
    && (end == EndOfInput ==> start.contents == start.ahead + contents)
    && (end == EndOfInput && start.mode.Framed? ==> Chunked.Run(start.mode.state, start.ahead) == Some(Chunked.Done))
    && (end == Malformed ==> start.mode.Framed? && Chunked.Run(start.mode.state, start.ahead) != Some(Chunked.Done))
  }

  lemma PipeStart(start: Start)
    ensures Moved(start, "", start.mode, start.ahead, start.contents, start.accepted)
  {
  }

  lemma RanOn(m0: Mode, a: string, m1: Mode, b: string, m2: Mode)
    requires Ran(m0, a, m1) && Ran(m1, b, m2)
    ensures Ran(m0, a + b, m2)
  {
    if m0.Framed? {
      Chunked.RunAppend(m0.state, a, b);
    }
  }

  /** One piece more. */
  lemma MovedOn(start: Start, copied: string, got: string, mode: Mode, ahead: string, contents: string, accepted: string,
                mode': Mode, ahead': string, contents': string)
    requires Moved(start, copied, mode, ahead, contents, accepted)
    requires Ran(mode, got, mode') && ahead == got + ahead' && contents == got + contents'
    ensures Moved(start, copied + got, mode', ahead', contents', accepted + got)
  {
    RanOn(start.mode, copied, mode, got, mode');
  }

  /** A write that fails has taken a part of the piece at most. */
  lemma WriteStops(start: Start, copied: string, got: string, k: nat, mode: Mode, ahead: string, contents: string, accepted: string,
                   ahead': string, contents': string)
    requires Moved(start, copied, mode, ahead, contents, accepted) && ahead == got + ahead' && k <= |got|
    ensures Stopped(start, WriteFailed, contents', accepted + got[..k])
  {
    assert start.accepted + start.ahead == accepted + got[..k] + (got[k..] + ahead');
  }

  /** Between pieces nothing is lost and nothing is ahead of the body. */
  lemma PauseStops(start: Start, copied: string, mode: Mode, ahead: string, contents: string, accepted: string, end: PipeEnd)
    requires Moved(start, copied, mode, ahead, contents, accepted)
    requires end == EndOfInput ==> ahead == [] && (mode.Framed? ==> mode.state == Chunked.Done)
    requires end == Malformed ==> ahead == [] && mode.Framed? && mode.state != Chunked.Done
    ensures Stopped(start, end, contents, accepted)
  {
    assert start.accepted + start.ahead == accepted + ahead;
    assert ahead == [] ==> copied + ahead == copied;
  }

  /** Reads one piece and writes it, or says why the pipe stops. */
  method CopyOnce(reader: BodyReader, writer: BufferingWriter, ghost start: Start, ghost copied: string)
      returns (end: Option<PipeEnd>, ghost copied': string)
    requires reader.Valid()
    requires Moved(start, copied, reader.mode, reader.Ahead(), reader.client.Contents(), writer.Accepted())
    modifies reader, reader.client, writer`delivered, writer`queued
    ensures reader.Valid()
    ensures end.Some? ==> Stopped(start, end.value, reader.client.Contents(), writer.Accepted())
    ensures end.None? ==> Moved(start, copied', reader.mode, reader.Ahead(), reader.client.Contents(), writer.Accepted())
    ensures end.None? ==> |reader.client.Contents()| < old(|reader.client.Contents()|)
  {
    hide BodyReader.Ahead, ConnStream.Contents, BufferingWriter.Accepted, Moved, Stopped, Ran;
    copied' := copied;
    ghost var mode, ahead, contents, accepted := reader.mode, reader.Ahead(), reader.client.Contents(), writer.Accepted();
    var broken: bool := *;
    if broken {
      PauseStops(start, copied, mode, ahead, contents, accepted, ReadFailed);
      return Some(ReadFailed), copied;
    }
    var got := reader.Read(4096);
    if got.Failed? {
      FailedStops(start, copied, mode, ahead, contents, accepted, reader.client.Contents());
      return Some(Malformed), copied;
    }
    if got.bytes == [] {
      assert contents == reader.client.Contents();
      PauseStops(start, copied, mode, ahead, contents, accepted, EndOfInput);
      return Some(EndOfInput), copied;
    }
    var ok := writer.WriteAll(got.bytes);
    if !ok {
      ghost var k :| 0 <= k <= |got.bytes| && writer.Accepted() == accepted + got.bytes[..k];
      WriteStops(start, copied, got.bytes, k, mode, ahead, contents, accepted, reader.Ahead(), reader.client.Contents());
      return Some(WriteFailed), copied;
    }
    MovedOn(start, copied, got.bytes, mode, ahead, contents, accepted, reader.mode, reader.Ahead(), reader.client.Contents());
    return None, copied + got.bytes;
  }

  /** A reader that fails has nothing left to deliver, whatever it leaves on the connection. */
  lemma FailedStops(start: Start, copied: string, mode: Mode, ahead: string, contents: string, accepted: string, contents': string)
    requires Moved(start, copied, mode, ahead, contents, accepted)
    requires ahead == [] && mode.Framed? && mode.state != Chunked.Done
    ensures Stopped(start, Malformed, contents', accepted)
  {
    assert copied + ahead == copied;
  }

  /** `pipe`: copies until the reader ends, flushing only when the source goes quiet.
      `parks` records what was still queued each time it parked on a read. */
  method Pipe(reader: BodyReader, writer: BufferingWriter) returns (end: PipeEnd, flushed: bool, parks: seq<string>)
    requires reader.Valid() && writer.queued == ""
    modifies reader, reader.client, writer`delivered, writer`queued, writer`closed
    ensures reader.Valid()
    ensures forall i :: 0 <= i < |parks| ==> parks[i] == ""
    ensures Stopped(Start(old(reader.mode), old(reader.Ahead()), old(reader.client.Contents()), old(writer.Accepted())),
                    end, reader.client.Contents(), writer.Accepted())
    ensures flushed ==> writer.queued == ""
    ensures writer.closed == (old(writer.closed) || (flushed && !writer.keepOpen))
  {
    hide BodyReader.Ahead, ConnStream.Contents, BufferingWriter.Accepted, Moved, Stopped;
    var unflushed := false;
    parks := [];
    ghost var start := Start(reader.mode, reader.Ahead(), reader.client.Contents(), writer.Accepted());
    ghost var copied := "";
    PipeStart(start);
    while true
      invariant reader.Valid() && writer.closed == old(writer.closed)
      invariant forall i :: 0 <= i < |parks| ==> parks[i] == ""
      invariant !unflushed ==> writer.queued == ""
      invariant Moved(start, copied, reader.mode, reader.Ahead(), reader.client.Contents(), writer.Accepted())
      decreases |reader.client.Contents()|
    {
      var ready: bool := *;
      if !ready {
        if unflushed {
          PauseStops(start, copied, reader.mode, reader.Ahead(), reader.client.Contents(), writer.Accepted(), WriteFailed);
          var ok := writer.Flush();
          if !ok { end := WriteFailed; break; }
        }
        parks := parks + [writer.queued];
      }
      var stop;
      stop, copied := CopyOnce(reader, writer, start, copied);
      if stop.Some? { end := stop.value; break; }
      unflushed := true;
    }
    flushed := writer.Shutdown();
  }
}
