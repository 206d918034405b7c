/** What `body_framing` decides, said without its scan: the rules of section 6.3 of RFC 9112
    for requests, with everything doubtful refused. */
module FramingRules {
  import opened Text
  import opened Numerals
  import opened HttpHeads

  predicate IsLength(line: Line) { Names(line, "content-length") }

  predicate IsEncoding(line: Line) { Names(line, "transfer-encoding") }

  /** No framing field is continued on the next line. */
  ghost predicate NoFoldedFraming(ls: seq<Line>) {
    forall i :: 0 < i < |ls| && ls[i].fold ==> !IsLength(ls[i - 1]) && !IsEncoding(ls[i - 1])
  }

  ghost predicate LengthsParse(ls: seq<Line>) {
    forall i :: 0 <= i < |ls| && IsLength(ls[i]) ==> ParseUnsigned(ls[i].field.value.value, 10, U64).Some?
  }

  /** The length the first Content-Length gives. */
  ghost function FirstLength(ls: seq<Line>): Option<nat> {
    if ls == [] then None
    else if IsLength(ls[0]) then ParseUnsigned(ls[0].field.value.value, 10, U64)
    else FirstLength(ls[1..])
  }

  /** The coding the first Transfer-Encoding names. */
  ghost function FirstEncoding(ls: seq<Line>): Option<string> {
    if ls == [] then None
    else if IsEncoding(ls[0]) then Some(Lower(ls[0].field.value.value))
    else FirstEncoding(ls[1..])
  }

  lemma NoFoldedFramingSplit(ls: seq<Line>)
    requires ls != []
    ensures NoFoldedFraming(ls) <==> NoFoldedFraming(ls[1..]) && !(|ls| > 1 && ls[1].fold && (IsLength(ls[0]) || IsEncoding(ls[0])))
  {
    hide IsLength, IsEncoding;
    var tail := ls[1..];
    if NoFoldedFraming(ls) {
      forall i | 0 < i < |tail| && tail[i].fold ensures !IsLength(tail[i - 1]) && !IsEncoding(tail[i - 1]) {
        assert tail[i] == ls[i + 1] && tail[i - 1] == ls[i];
      }
    }
    if NoFoldedFraming(tail) && !(|ls| > 1 && ls[1].fold && (IsLength(ls[0]) || IsEncoding(ls[0]))) {
      forall i | 0 < i < |ls| && ls[i].fold ensures !IsLength(ls[i - 1]) && !IsEncoding(ls[i - 1]) {
        if i > 1 { assert tail[i - 1] == ls[i] && tail[i - 2] == ls[i - 1]; }
      }
    }
  }

  lemma LengthsParseSplit(ls: seq<Line>)
    requires ls != []
    ensures LengthsParse(ls) <==> LengthsParse(ls[1..]) && (IsLength(ls[0]) ==> ParseUnsigned(ls[0].field.value.value, 10, U64).Some?)
  {
    hide ParseUnsigned;
    var tail := ls[1..];
    assert forall i :: 0 <= i < |tail| ==> tail[i] == ls[i + 1];
    assert forall i :: 0 < i < |ls| ==> ls[i] == tail[i - 1];
  }

  lemma CountSplit(ls: seq<Line>)
    requires ls != []
    ensures Count(ls, "content-length") == (if IsLength(ls[0]) then 1 else 0) + Count(ls[1..], "content-length")
    ensures Count(ls, "transfer-encoding") == (if IsEncoding(ls[0]) then 1 else 0) + Count(ls[1..], "transfer-encoding")
  {
  }

  /** When the scan gets through, and with what. */
  ghost predicate ScanGives(ls: seq<Line>, st: Seen, r: Result<Seen, FramingError>) {
    && (r.Ok? <==>
          && NoFoldedFraming(ls) && !(st.last && ls != [] && ls[0].fold)
          && LengthsParse(ls)
          && Count(ls, "content-length") <= (if st.length.Some? then 0 else 1)
          && Count(ls, "transfer-encoding") <= (if st.encoding.Some? then 0 else 1))
    && (r.Ok? ==> r.value.length == if st.length.Some? then st.length else FirstLength(ls))
    && (r.Ok? ==> r.value.encoding == if st.encoding.Some? then st.encoding else FirstEncoding(ls))
  }

  /** What one line does to the accumulators. */
  lemma LineGives(line: Line, st: Seen)
    requires line.fold || line.field.Some?
    ensures var r := FramingLine(line, st);
            if line.fold then (if st.last then r.Err? else r == Ok(st))
            else if IsLength(line) then
              r == (match ParseUnsigned(line.field.value.value, 10, U64)
                    case None => Err(InvalidContentLength)
                    case Some(n) => if st.length.Some? then Err(DuplicateContentLength) else Ok(Seen(Some(n), st.encoding, true)))
            else if IsEncoding(line) then
              r == (if st.encoding.Some? then Err(MultipleTransferEncodings)
                    else Ok(Seen(st.length, Some(Lower(line.field.value.value)), true)))
            else r == Ok(st.(last := false))
    ensures !(IsLength(line) && IsEncoding(line))
    ensures IsLength(line) || IsEncoding(line) ==> !line.fold && line.field.Some?
  {
    assert "content-length"[0] != "transfer-encoding"[0];
  }

  lemma {:induction false} FramingScanIs(ls: seq<Line>, st: Seen)
    requires EveryLineIsAField(ls)
    ensures ScanGives(ls, st, FramingScan(ls, st))
  {
    hide IsLength, IsEncoding, ParseUnsigned, FramingLine, Lower;
    if ls != [] {
      EveryLineSplit(ls);
      NoFoldedFramingSplit(ls);
      LengthsParseSplit(ls);
      LineGives(ls[0], st);
      CountSplit(ls);
      hide NoFoldedFraming, LengthsParse, EveryLineIsAField, Count;
      var step := FramingLine(ls[0], st);
      if step.Ok? {
        FramingScanIs(ls[1..], step.value);
      }
    }
  }

  lemma {:induction false} FirstLengthIs(ls: seq<Line>)
    requires LengthsParse(ls)
    ensures FirstLength(ls).Some? <==> Count(ls, "content-length") > 0
  {
    if ls != [] {
      LengthsParseSplit(ls);
      FirstLengthIs(ls[1..]);
    }
  }

  lemma {:induction false} FirstEncodingIs(ls: seq<Line>)
    ensures FirstEncoding(ls).Some? <==> Count(ls, "transfer-encoding") > 0
  {
    if ls != [] {
      FirstEncodingIs(ls[1..]);
    }
  }

  /** Framing fields are well formed: not continued, each at most once, never both, a
      length that is a 64-bit number. */
  ghost predicate Unambiguous(ls: seq<Line>) {
    NoFoldedFraming(ls) && LengthsParse(ls) && Count(ls, "content-length") + Count(ls, "transfer-encoding") <= 1
  }

  /** On an accepted header section: chunked exactly when the only framing field is a
      Transfer-Encoding that says so, a length exactly when the only one is a Content-Length
      of that value, none at all being a length of zero, and everything else is refused. */
  lemma FramingIff(ls: seq<Line>, n: nat)
    requires EveryLineIsAField(ls)
    ensures BodyFraming(ls) == Ok(Chunked) <==> Unambiguous(ls) && FirstEncoding(ls) == Some("chunked")
    ensures BodyFraming(ls) == Ok(Length(n)) <==>
      Unambiguous(ls) && Count(ls, "transfer-encoding") == 0
      && (if Count(ls, "content-length") == 0 then n == 0 else FirstLength(ls) == Some(n))
    ensures BodyFraming(ls).Ok? <==> Unambiguous(ls) && (Count(ls, "transfer-encoding") == 1 ==> FirstEncoding(ls) == Some("chunked"))
  {
    FramingScanIs(ls, UNSEEN);
    FirstEncodingIs(ls);
    if LengthsParse(ls) {
      FirstLengthIs(ls);
    }
    hide FramingScan, NoFoldedFraming, LengthsParse, Count, FirstLength, FirstEncoding;
  }

  lemma {:induction false} NoLength(ls: seq<Line>)
    ensures Count(ls, "content-length") == 0 <==> forall i :: 0 <= i < |ls| ==> !IsLength(ls[i])
    decreases |ls|
  {
    if ls != [] {
      NoLength(ls[1..]);
      assert forall i :: 0 < i < |ls| ==> ls[i] == ls[1..][i - 1];
    }
  }

  /** With a single Content-Length, the length read is the one of that line. */
  lemma {:induction false} OnlyLength(ls: seq<Line>, k: nat)
    requires k < |ls| && IsLength(ls[k]) && Count(ls, "content-length") == 1
    ensures FirstLength(ls) == ParseUnsigned(ls[k].field.value.value, 10, U64)
    ensures LengthsParse(ls) <==> ParseUnsigned(ls[k].field.value.value, 10, U64).Some?
    decreases |ls|
  {
    hide ParseUnsigned;
    LengthsParseSplit(ls);
    NoLength(ls[1..]);
    if k == 0 {
      assert LengthsParse(ls[1..]);
    } else {
      assert ls[k] == ls[1..][k - 1];
      OnlyLength(ls[1..], k - 1);
    }
  }

  /** A header section whose only framing field is the Content-Length of line `k` frames a
      body of `n` bytes exactly when that field is the decimal numeral of `n`, leading
      zeros and a plus sign allowed, and `n` is below 2 to the 64. */
  lemma LengthIff(ls: seq<Line>, k: nat, n: nat)
    requires EveryLineIsAField(ls) && NoFoldedFraming(ls) && k < |ls| && Names(ls[k], "content-length")
    requires Count(ls, "content-length") == 1 && Count(ls, "transfer-encoding") == 0
    ensures BodyFraming(ls) == Ok(Length(n)) <==> n < 18_446_744_073_709_551_616 && Unsigned(ls[k].field.value.value, n, false)
  {
    FramingIff(ls, n);
    OnlyLength(ls, k);
    ParseIff(ls[k].field.value.value, n, false, U64);
    hide BodyFraming, ParseUnsigned, Unsigned, FirstLength, NoFoldedFraming, LengthsParse, Count;
  }
}
