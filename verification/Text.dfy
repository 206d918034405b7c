/** Strings as the proxy's parsers see them: Unicode whitespace trimming, ASCII
    lower-casing, splitting, and Rust's unsigned number parsing. */
module Text {

  datatype Option<+T> = None | Some(value: T)

  datatype Result<+T, +E> = Ok(value: T) | Err(error: E)

  function Look<K, V>(m: map<K, V>, k: K): Option<V> {
    if k in m then Some(m[k]) else None
  }

  const LF: char := '\n'
  const CR: char := '\r'
  const NUL: char := '\0'

  /** The Unicode White_Space property, which `str::trim` uses. */
  predicate IsSpace(c: char) {
    || '\U{0009}' <= c <= '\U{000D}' || c == ' ' || c == '\U{0085}' || c == '\U{00A0}'
    || c == '\U{1680}' || '\U{2000}' <= c <= '\U{200A}' || c == '\U{2028}' || c == '\U{2029}'
    || c == '\U{202F}' || c == '\U{205F}' || c == '\U{3000}'
  }

  /** ASCII whitespace as `split_ascii_whitespace` sees it (no vertical tab). */
  predicate IsAsciiSpace(c: char) {
    c == ' ' || c == '\t' || c == LF || c == '\U{000C}' || c == CR
  }

  function TrimStart(s: string): (r: string)
    ensures |r| <= |s| && r == s[|s| - |r|..]
    ensures r != [] ==> !IsSpace(r[0])
  {
    if s != [] && IsSpace(s[0]) then TrimStart(s[1..]) else s
  }

  function TrimEnd(s: string): (r: string)
    ensures |r| <= |s| && r == s[..|r|]
    ensures r != [] ==> !IsSpace(r[|r| - 1])
  {
    if s != [] && IsSpace(s[|s| - 1]) then TrimEnd(s[..|s| - 1]) else s
  }

  function Trim(s: string): (r: string)
    ensures forall c :: c in r ==> c in s
    ensures r != [] ==> !IsSpace(r[0]) && !IsSpace(r[|r| - 1])
  {
    TrimEnd(TrimStart(s))
  }

  lemma TrimSolid(s: string)
    requires s != [] && !IsSpace(s[0]) && !IsSpace(s[|s| - 1])
    ensures Trim(s) == s
  {
    assert TrimStart(s) == s && TrimEnd(s) == s;
  }

  ghost predicate Spaces(s: string) { forall i :: 0 <= i < |s| ==> IsSpace(s[i]) }

  /** All but `s[i..j]` is whitespace, and that starts and ends with something else. */
  ghost predicate Core(s: string, i: nat, j: nat) {
    && i <= j <= |s|
    && (forall x :: 0 <= x < i ==> IsSpace(s[x])) && (forall x :: j <= x < |s| ==> IsSpace(s[x]))
    && (i < j ==> !IsSpace(s[i]) && !IsSpace(s[j - 1]))
  }

  lemma {:induction false} TrimStartPart(s: string)
    ensures forall x :: 0 <= x < |s| - |TrimStart(s)| ==> IsSpace(s[x])
  {
    if s != [] && IsSpace(s[0]) {
      TrimStartPart(s[1..]);
      forall x | 0 < x < |s| - |TrimStart(s)| ensures IsSpace(s[x]) { assert s[x] == s[1..][x - 1]; }
    }
  }

  lemma {:induction false} TrimEndPart(s: string)
    ensures forall x :: |TrimEnd(s)| <= x < |s| ==> IsSpace(s[x])
  {
    if s != [] && IsSpace(s[|s| - 1]) {
      TrimEndPart(s[..|s| - 1]);
    }
  }

  lemma TrimCore(s: string) returns (i: nat, j: nat)
    ensures Core(s, i, j) && Trim(s) == s[i..j]
  {
    hide IsSpace, TrimStart, TrimEnd;
    var t := TrimStart(s);
    TrimStartPart(s);
    TrimEndPart(t);
    i := |s| - |t|;
    j := i + |Trim(s)|;
    forall x | j <= x < |s| ensures IsSpace(s[x]) { assert s[x] == t[x - i]; }
    if i < j { assert s[i] == t[0] && s[j - 1] == t[j - 1 - i]; }
  }

  /** Trimming takes the whitespace off both ends and nothing else. */
  lemma TrimIs(s: string, i: nat, j: nat)
    requires Core(s, i, j)
    ensures Trim(s) == s[i..j]
  {
    var a, b := TrimCore(s);
    hide Trim;
    assert i < j ==> a == i && b == j;
    assert i == j ==> a == b;
  }

  /** `trim_end_matches(c)`: drops every trailing `c`. */
  function TrimEndOf(s: string, c: char): (r: string)
    ensures |r| <= |s| && r == s[..|r|]
    ensures r != [] ==> r[|r| - 1] != c
    ensures forall i :: |r| <= i < |s| ==> s[i] == c
  {
    if s != [] && s[|s| - 1] == c then TrimEndOf(s[..|s| - 1], c) else s
  }

  function LowerChar(c: char): char {
    if 'A' <= c <= 'Z' then c - 'A' + 'a' else c
  }

  function Lower(s: string): (r: string)
    ensures |r| == |s|
    ensures forall i :: 0 <= i < |s| ==> r[i] == LowerChar(s[i])
  {
    seq(|s|, i requires 0 <= i < |s| => LowerChar(s[i]))
  }

  /** Index of the first `c`, or `|s|` when there is none. */
  function Find(s: string, c: char): (i: nat)
    ensures i <= |s|
    ensures i < |s| ==> s[i] == c
    ensures forall k :: 0 <= k < i ==> s[k] != c
  {
    if s == [] || s[0] == c then 0 else 1 + Find(s[1..], c)
  }

  lemma FindAt(s: string, c: char, i: nat)
    requires i <= |s| && (forall k :: 0 <= k < i ==> s[k] != c) && (i < |s| ==> s[i] == c)
    ensures Find(s, c) == i
  {
  }

  /** `split_once(c)`: the text before and after the first `c`. */
  function SplitOnce(s: string, c: char): (r: Option<(string, string)>)
    ensures r.Some? <==> c in s
    ensures r.Some? ==> r.value.0 + [c] + r.value.1 == s && c !in r.value.0
  {
    var i := Find(s, c);
    if i < |s| then Some((s[..i], s[i + 1..])) else None
  }

  /** `rsplit_once(c)`: the text before and after the last `c`. */
  function RSplitOnce(s: string, c: char): (r: Option<(string, string)>)
    ensures r.Some? <==> c in s
    ensures r.Some? ==> r.value.0 + [c] + r.value.1 == s && c !in r.value.1
  {
    if s == [] then None
    else if s[|s| - 1] == c then Some((s[..|s| - 1], []))
    else match RSplitOnce(s[..|s| - 1], c)
      case None => None
      case Some((a, b)) => Some((a, b + [s[|s| - 1]]))
  }

  /** `split(c)`: never empty. */
  function Split(s: string, c: char): (parts: seq<string>)
    ensures |parts| >= 1
    decreases |s|
  {
    var i := Find(s, c);
    if i < |s| then [s[..i]] + Split(s[i + 1..], c) else [s]
  }

  lemma SplitSingle(s: string, c: char)
    requires c !in s
    ensures Split(s, c) == [s]
  {
    FindAt(s, c, |s|);
  }

  lemma SplitOnceAt(a: string, c: char, b: string)
    requires c !in a
    ensures SplitOnce(a + [c] + b, c) == Some((a, b))
  {
    var s := a + [c] + b;
    forall k | 0 <= k < |a| ensures s[k] != c { assert s[k] == a[k] && a[k] in a; }
    FindAt(s, c, |a|);
    assert s[..|a|] == a && s[|a| + 1..] == b;
  }

  lemma {:induction false} RSplitOnceAt(a: string, c: char, b: string)
    requires c !in b
    ensures RSplitOnce(a + [c] + b, c) == Some((a, b))
    decreases |b|
  {
    var s := a + [c] + b;
    if b == [] {
      assert s == a + [c] && s[..|s| - 1] == a;
    } else {
      var init := b[..|b| - 1];
      RSplitOnceAt(a, c, init);
      assert s[..|s| - 1] == a + [c] + init;
      assert s[|s| - 1] == b[|b| - 1] && b[|b| - 1] in b;
      assert init + [b[|b| - 1]] == b;
    }
  }

  /** `s[i..j]` lies between two `c` that follow each other, or an end of the text. */
  ghost predicate Piece(s: string, c: char, i: nat, j: nat) {
    i <= j <= |s| && (i == 0 || s[i - 1] == c) && (j == |s| || s[j] == c) && forall x :: i <= x < j ==> s[x] != c
  }

  ghost predicate IsPiece(s: string, c: char, part: string) {
    exists i: nat, j: nat :: Piece(s, c, i, j) && part == s[i..j]
  }

  /** A piece of what follows a separator is one of the whole. */
  lemma PieceShift(s: string, c: char, n: nat, i: nat, j: nat)
    requires n < |s| && s[n] == c && i <= j <= |s| - n - 1
    ensures Piece(s[n + 1..], c, i, j) <==> Piece(s, c, i + n + 1, j + n + 1)
    ensures s[n + 1..][i..j] == s[i + n + 1..j + n + 1]
  {
    var rest := s[n + 1..];
    assert forall x :: 0 <= x < |rest| ==> rest[x] == s[x + n + 1];
    if Piece(rest, c, i, j) {
      forall x | i + n + 1 <= x < j + n + 1 ensures s[x] != c { assert s[x] == rest[x - n - 1]; }
    }
  }

  /** The pieces of a text are the first one and those of what follows its separator. */
  lemma PieceCons(s: string, c: char, n: nat, part: string)
    requires n < |s| && s[n] == c && forall x :: 0 <= x < n ==> s[x] != c
    ensures IsPiece(s, c, part) <==> part == s[..n] || IsPiece(s[n + 1..], c, part)
  {
    var rest := s[n + 1..];
    assert Piece(s, c, 0, n) && s[0..n] == s[..n];
    forall i: nat, j: nat | Piece(s, c, i, j) && part == s[i..j] ensures part == s[..n] || IsPiece(rest, c, part) {
      PieceAfter(s, c, n, i, j);
    }
    hide Piece;
    forall i: nat, j: nat | Piece(rest, c, i, j) && part == rest[i..j] ensures IsPiece(s, c, part) {
      PieceBounds(rest, c, i, j);
      PieceShift(s, c, n, i, j);
    }
  }

  lemma PieceAfter(s: string, c: char, n: nat, i: nat, j: nat)
    requires n < |s| && s[n] == c && (forall x :: 0 <= x < n ==> s[x] != c) && Piece(s, c, i, j)
    ensures s[i..j] == s[..n] || IsPiece(s[n + 1..], c, s[i..j])
  {
    if i > n {
      PieceShift(s, c, n, i - n - 1, j - n - 1);
    } else {
      assert i == 0 && j == n;
    }
  }

  lemma PieceBounds(s: string, c: char, i: nat, j: nat)
    requires Piece(s, c, i, j)
    ensures i <= j <= |s|
  {
  }

  /** Splitting yields exactly the pieces. */
  lemma {:induction false} SplitPieces(s: string, c: char, part: string)
    ensures part in Split(s, c) <==> IsPiece(s, c, part)
    decreases |s|
  {
    var n := Find(s, c);
    if n < |s| {
      SplitPieces(s[n + 1..], c, part);
      PieceCons(s, c, n, part);
    } else {
      assert Piece(s, c, 0, |s|) && s[0..|s|] == s;
    }
  }

  /** `split_ascii_whitespace`: the maximal runs of non-whitespace. */
  function Words(s: string): (ws: seq<string>)
    ensures forall w :: w in ws ==> w != [] && forall c :: c in w ==> !IsAsciiSpace(c) && c in s
    decreases |s|
  {
    if s == [] then []
    else if IsAsciiSpace(s[0]) then Words(s[1..])
    else
      var n := WordLength(s);
      [s[..n]] + Words(s[n..])
  }

  function WordLength(s: string): (n: nat)
    ensures n <= |s|
    ensures s != [] && !IsAsciiSpace(s[0]) ==> n > 0
    ensures forall i :: 0 <= i < n ==> !IsAsciiSpace(s[i])
    ensures n < |s| ==> IsAsciiSpace(s[n])
  {
    if s == [] || IsAsciiSpace(s[0]) then 0 else 1 + WordLength(s[1..])
  }

  ghost predicate IsWord(w: string) {
    w != [] && forall i :: 0 <= i < |w| ==> !IsAsciiSpace(w[i])
  }

  lemma WordLengthOf(w: string, rest: string)
    requires (forall i :: 0 <= i < |w| ==> !IsAsciiSpace(w[i])) && (rest != [] ==> IsAsciiSpace(rest[0]))
    ensures WordLength(w + rest) == |w|
  {
    if w == [] {
      assert w + rest == rest;
    } else {
      assert (w + rest)[1..] == w[1..] + rest;
      WordLengthOf(w[1..], rest);
    }
  }

  /** A word followed by whitespace or the end is the next word read. */
  lemma WordsCons(w: string, rest: string)
    requires IsWord(w) && (rest != [] ==> IsAsciiSpace(rest[0]))
    ensures Words(w + rest) == [w] + Words(rest)
  {
    WordLengthOf(w, rest);
    assert (w + rest)[..|w|] == w && (w + rest)[|w|..] == rest;
  }

  /** Trailing whitespace adds no word. */
  lemma {:induction false} WordsTrailing(s: string, c: char)
    requires IsAsciiSpace(c)
    ensures Words(s + [c]) == Words(s)
    decreases |s|
  {
    if s == [] {
      assert (s + [c])[1..] == [];
    } else if IsAsciiSpace(s[0]) {
      assert (s + [c])[1..] == s[1..] + [c];
      WordsTrailing(s[1..], c);
    } else {
      var n := WordLength(s);
      var w, rest := s[..n], s[n..];
      assert s == w + rest && s + [c] == w + (rest + [c]);
      WordsCons(w, rest);
      WordsCons(w, rest + [c]);
      WordsTrailing(rest, c);
    }
  }

  lemma {:induction false} WordsTrimmed(s: string)
    ensures Words(TrimEndOf(s, CR)) == Words(s)
  {
    if s != [] && s[|s| - 1] == CR {
      WordsTrimmed(s[..|s| - 1]);
      WordsTrailing(s[..|s| - 1], CR);
      assert s == s[..|s| - 1] + [CR];
    }
  }

  lemma WordsSpace(s: string)
    ensures Words(" " + s) == Words(s)
  {
    assert (" " + s)[1..] == s;
  }

  lemma LastWord(w: string)
    requires IsWord(w)
    ensures Words(w) == [w]
  {
    WordsCons(w, "");
    assert w + "" == w;
  }

  lemma ThreeWords(a: string, b: string, c: string)
    requires IsWord(a) && IsWord(b) && IsWord(c)
    ensures Words(a + " " + b + " " + c) == [a, b, c]
  {
    hide Words;
    var last := " " + c;
    var rest := " " + (b + last);
    WordsSpace(c);
    WordsSpace(b + last);
    LastWord(c);
    WordsCons(b, last);
    WordsCons(a, rest);
    assert a + " " + b + " " + c == a + rest;
  }

  function DigitValue(c: char, radix: nat): Option<nat> {
    var v := if '0' <= c <= '9' then (c - '0') as nat
             else if 'a' <= c <= 'z' then (c - 'a') as nat + 10
             else if 'A' <= c <= 'Z' then (c - 'A') as nat + 10
             else radix;
    if v < radix then Some(v) else None
  }

  /** Value of a digit string read most significant digit first. */
  function Digits(s: string, radix: nat): Option<nat> {
    if s == [] then Some(0)
    else match (Digits(s[..|s| - 1], radix), DigitValue(s[|s| - 1], radix))
      case (Some(a), Some(b)) => Some(a * radix + b)
      case _ => None
  }

  /** Rust's unsigned `from_str_radix`: an optional `+`, at least one digit, no overflow. */
  function ParseUnsigned(s: string, radix: nat, bound: nat): Option<nat> {
    var digits := if s != [] && s[0] == '+' then s[1..] else s;
    if digits == [] then None
    else match Digits(digits, radix)
      case Some(n) => if n < bound then Some(n) else None
      case None => None
  }

  const U64: nat := 0x1_0000_0000_0000_0000
  const U16: nat := 0x1_0000

  predicate LfFree(s: string) { forall i :: 0 <= i < |s| ==> s[i] != LF }
}
