/** A connection whose peeked bytes can be pushed back. How many bytes a read of the
    underlying stream delivers is left open, so every fact below holds for every
    fragmentation. */
module ConnStreams {

  class ConnStream {
    /** What the peer sends, from the first byte not yet read to the end of input. */
    var wire: string
    var pushback: string
    var offset: nat

    ghost predicate Valid()
      reads this
    {
      offset <= |pushback|
    }

    /** Everything later reads will present, in order. */
    ghost function Contents(): string
      requires Valid()
      reads this
    {
      pushback[offset..] + wire
    }

    constructor (wire: string)
      ensures Valid() && Contents() == wire
    {
      this.wire := wire;
      pushback, offset := "", 0;
    }

    /** `poll_read` with room for `room` bytes: a non-empty piece of what comes next,
        nothing at the end of input. */
    method Read(room: nat) returns (r: string)
      requires Valid()
      modifies this
      ensures Valid()
      ensures r + Contents() == old(Contents())
      ensures |r| <= room
      ensures r == [] <==> room == 0 || old(Contents()) == []
    {
      if offset < |pushback| {
        var available := pushback[offset..];
        var count := if |available| < room then |available| else room;
        r := available[..count];
        offset := offset + count;
        if offset == |pushback| {
          pushback, offset := "", 0;
        }
        return;
      }
      var most := if |wire| < room then |wire| else room;
      var count :| 0 <= count <= most && (most > 0 ==> count > 0);
      r := wire[..count];
      wire := wire[count..];
    }

    /** `unread`: the given bytes are presented before everything else. */
    method Unread(bytes: string)
      requires Valid()
      modifies this
      ensures Valid()
      ensures Contents() == bytes + old(Contents())
    {
      if bytes == [] { return; }
      pushback := pushback[offset..];
      offset := 0;
      pushback := bytes + pushback;
    }
  }
}
