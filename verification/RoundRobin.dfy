/** How evenly turns are dealt by a cursor, and by a cursor over groups that each deal
    their own endpoints with a second one. */
module RoundRobin {
  import opened Text
  import opened Balancing
  import opened Selection

  // ---------------------------------------------------------------- one cursor

  /** How often `i` comes up in `m` turns of a cursor over `n` members that starts at `c`
      and never wraps. */
  ghost function Times(i: nat, c: nat, m: nat, n: nat): nat
    requires n > 0
  {
    if m == 0 then 0 else Times(i, c, m - 1, n) + if (c + m - 1) % n == i then 1 else 0
  }

  lemma ModShift(c: nat, k: nat, n: nat, i: nat)
    requires k < n && i < n
    ensures (c + k) % n == i <==> (i as int - c) % n == k
  {
    var q, q2 := (c + k) / n, (i as int - c) / n;
    assert c + k == q * n + (c + k) % n;
    assert i - c == q2 * n + (i as int - c) % n;
    if (c + k) % n == i {
      assert i - c == (-q) * n + k by { assert (-q) * n == -(q * n); }
      Unique(n, -q, k, q2, (i as int - c) % n);
    }
    if (i as int - c) % n == k {
      assert c + k == (-q2) * n + i by { assert (-q2) * n == -(q2 * n); }
      Unique(n, -q2, i, q, (c + k) % n);
    }
  }

  lemma Multiple(d: int, e: int, n: nat)
    requires d > e
    ensures d * n >= e * n + n
  {
    assert (d - e - 1) * n >= 0;
    assert (d - e - 1) * n == d * n - e * n - n;
  }

  /** Division with remainder is unique. */
  lemma Unique(n: nat, q: int, r: int, q2: int, r2: int)
    requires 0 <= r < n && 0 <= r2 < n && q * n + r == q2 * n + r2
    ensures r == r2
  {
    if q > q2 {
      Multiple(q, q2, n);
    } else if q < q2 {
      Multiple(q2, q, n);
    }
  }

  /** Within one round each member comes up at most once, at its own turn. */
  lemma {:induction false} ShortRun(i: nat, c: nat, m: nat, n: nat)
    requires i < n && m <= n
    ensures Times(i, c, m, n) == if (i as int - c) % n < m then 1 else 0
  {
    if m > 0 {
      ShortRun(i, c, m - 1, n);
      ModShift(c, m - 1, n, i);
    }
  }

  lemma {:induction false} TimesSplit(i: nat, c: nat, a: nat, b: nat, n: nat)
    requires n > 0
    ensures Times(i, c, a + b, n) == Times(i, c, a, n) + Times(i, c + a, b, n)
  {
    if b > 0 {
      TimesSplit(i, c, a, b - 1, n);
      assert a + b - 1 == a + (b - 1);
      assert c + (a + b) - 1 == c + a + b - 1;
    }
  }

  /** Each member gets the whole rounds, and at most one turn more. */
  lemma {:induction false} Rounds(i: nat, c: nat, m: nat, n: nat, rounds: nat, rest: nat)
    requires i < n && m == rounds * n + rest && rest < n
    ensures rounds <= Times(i, c, m, n) <= rounds + 1
    ensures rest == 0 ==> Times(i, c, m, n) == rounds
    decreases rounds
  {
    if rounds == 0 {
      ShortRun(i, c, m, n);
    } else {
      var less := (rounds - 1) * n + rest;
      assert m == n + less by { assert rounds * n == (rounds - 1) * n + n; }
      assert less >= 0 by { assert (rounds - 1) * n >= 0; }
      Rounds(i, c + n, less, n, rounds - 1, rest);
      TimesSplit(i, c, n, less, n);
      ShortRun(i, c, n, n);
    }
  }

  /** In any window the turns of any two members differ by at most one. */
  lemma Fair(i: nat, j: nat, c: nat, m: nat, n: nat)
    requires i < n && j < n
    ensures Times(i, c, m, n) - Times(j, c, m, n) <= 1
  {
    Rounds(i, c, m, n, m / n, m % n);
    Rounds(j, c, m, n, m / n, m % n);
  }

  // ---------------------------------------------------------------- the 64-bit cursor

  /** The member a 64-bit cursor gives the turn after `x` increments. */
  ghost function Slot(x: nat, n: nat): nat
    requires n > 0
  {
    TurnOf(Wrap(x), n)
  }

  /** The same count on the cursor as it is, which wraps at 64 bits. */
  ghost function Turns(i: nat, c: nat, m: nat, n: nat): nat
    requires n > 0
  {
    if m == 0 then 0 else Turns(i, c, m - 1, n) + if Slot(c + m - 1, n) == i then 1 else 0
  }

  ghost predicate IsFair(n: nat)
    requires n > 0
  {
    forall i: nat, j: nat, c: nat, m: nat :: i < n && j < n && c < U64_SIZE ==> Turns(i, c, m, n) - Turns(j, c, m, n) <= 1
  }

  /** Short of the wrap the cursor counts as an unbounded one. */
  lemma {:induction false} NoWrap(i: nat, c: nat, m: nat, n: nat)
    requires n > 0 && c + m <= U64_SIZE
    ensures Turns(i, c, m, n) == Times(i, c, m, n)
  {
    if m > 0 {
      NoWrap(i, c, m - 1, n);
      Small(c + m - 1);
    }
  }

  lemma Small(x: nat)
    requires x < U64_SIZE
    ensures x % U64_SIZE == x
  {
  }

  /** A divisor of the cursor's size does not notice the wrap. */
  lemma {:induction false} WrapUnnoticed(i: nat, c: nat, m: nat, n: nat)
    requires n > 0 && U64_SIZE % n == 0
    ensures Turns(i, c, m, n) == Times(i, c, m, n)
  {
    if m > 0 {
      WrapUnnoticed(i, c, m - 1, n);
      ModOfMod(c + m - 1, n);
    }
  }

  lemma ModOfMod(x: nat, n: nat)
    requires n > 0 && U64_SIZE % n == 0
    ensures (x % U64_SIZE) % n == x % n
  {
    var size := U64_SIZE;
    var q, t, y := x / size, size / n, x % size;
    assert size == t * n;
    assert x == q * size + y;
    assert q * size == (q * t) * n by { Associate(q, t, n); }
    var a, b := x / n, y / n;
    assert x == a * n + x % n && y == b * n + y % n;
    assert (q * t + b) * n == (q * t) * n + b * n by { Spread(q * t, b, n); }
    Unique(n, q * t + b, y % n, a, x % n);
  }

  lemma Associate(a: int, b: int, n: int)
    ensures a * (b * n) == (a * b) * n
  {
  }

  lemma Spread(a: int, b: int, n: int)
    ensures (a + b) * n == a * n + b * n
  {
  }

  /** The turns around the wrap: the last `r` before it and the first `r` after it go to
      the same `r` members. */
  lemma {:induction false} AfterWrap(i: nat, c: nat, m: nat, k: nat, n: nat)
    requires n > 0 && c + m == U64_SIZE && k <= U64_SIZE
    ensures Turns(i, c, m + k, n) == Times(i, c, m, n) + Times(i, 0, k, n)
    decreases k
  {
    if k == 0 {
      NoWrap(i, c, m, n);
    } else {
      AfterWrap(i, c, m, k - 1, n);
      assert m + k - 1 == m + (k - 1);
      assert (c + (m + k) - 1) % U64_SIZE == k - 1 by { Past(k - 1); }
    }
  }

  lemma Past(x: nat)
    requires x < U64_SIZE
    ensures (U64_SIZE + x) % U64_SIZE == x
  {
  }

  /** Starting at a multiple of `n`, the first `r` turns go to the first `r` members. */
  lemma FromStart(i: nat, c: nat, q: nat, r: nat, n: nat)
    requires i < n && r < n && c == q * n
    ensures Times(i, c, r, n) == if i < r then 1 else 0
  {
    Unique(n, q, i, (c + i) / n, (c + i) % n);
    ModShift(c, i, n, i);
    ShortRun(i, c, r, n);
  }

  lemma UnfairAtWrap(n: nat)
    requires n > 0 && U64_SIZE % n != 0
    ensures var r := U64_SIZE % n;
            r < n && Turns(0, U64_SIZE - r, 2 * r, n) == 2 && Turns(r, U64_SIZE - r, 2 * r, n) == 0
  {
    var r, q := U64_SIZE % n, U64_SIZE / n;
    var c := U64_SIZE - r;
    assert c == q * n;
    hide Turns, Times;
    AfterWrap(0, c, r, r, n);
    AfterWrap(r, c, r, r, n);
    FromStart(0, c, q, r, n);
    FromStart(r, c, q, r, n);
    FromStart(0, 0, 0, r, n);
    FromStart(r, 0, 0, r, n);
  }

  lemma FairAcrossWrap(n: nat, i: nat, j: nat, c: nat, m: nat)
    requires i < n && j < n && U64_SIZE % n == 0
    ensures Turns(i, c, m, n) - Turns(j, c, m, n) <= 1
  {
    WrapUnnoticed(i, c, m, n);
    WrapUnnoticed(j, c, m, n);
    Fair(i, j, c, m, n);
  }

  lemma NotFair(n: nat, i: nat, j: nat, c: nat, m: nat)
    requires i < n && j < n && c < U64_SIZE && Turns(i, c, m, n) - Turns(j, c, m, n) > 1
    ensures !IsFair(n)
  {
  }

  /** Every window is fair exactly when the pool's size divides the cursor's: across the
      wrap any other size can give one member two turns and another none. */
  lemma FairIff(n: nat)
    requires n > 0
    ensures IsFair(n) <==> 0x1_0000_0000_0000_0000 % n == 0
  {
    hide Turns;
    if U64_SIZE % n == 0 {
      forall i: nat, j: nat, c: nat, m: nat | i < n && j < n && c < U64_SIZE
        ensures Turns(i, c, m, n) - Turns(j, c, m, n) <= 1
      {
        FairAcrossWrap(n, i, j, c, m);
      }
    } else {
      hide IsFair;
      var r := U64_SIZE % n;
      UnfairAtWrap(n);
      NotFair(n, 0, r, U64_SIZE - r, 2 * r);
    }
  }

  // ---------------------------------------------------------------- two levels

  /** The route's cursor and each group's own one. */
  datatype Cursors = Cursors(cursor: nat, sequences: seq<nat>)

  ghost predicate Fits(at: Cursors, sizes: seq<nat>) {
    && |at.sequences| == |sizes| > 0
    && at.cursor < U64_SIZE
    && (forall g :: 0 <= g < |sizes| ==> sizes[g] > 0 && at.sequences[g] < U64_SIZE)
  }

  /** The group and the endpoint whose turn it is. */
  ghost function Picked(at: Cursors, sizes: seq<nat>): (nat, nat)
    requires Fits(at, sizes)
  {
    var g := TurnOf(at.cursor, |sizes|);
    (g, TurnOf(at.sequences[g], sizes[g]))
  }

  /** What a round-robin selection does to the cursors. */
  ghost function Moved(at: Cursors, sizes: seq<nat>): (after: Cursors)
    requires Fits(at, sizes)
    ensures Fits(after, sizes)
  {
    var g := TurnOf(at.cursor, |sizes|);
    Cursors(Wrap(at.cursor + 1), at.sequences[g := Wrap(at.sequences[g] + 1)])
  }

  ghost function After(at: Cursors, sizes: seq<nat>, m: nat): (after: Cursors)
    requires Fits(at, sizes)
    ensures Fits(after, sizes)
  {
    if m == 0 then at else Moved(After(at, sizes, m - 1), sizes)
  }

  /** How often group `g` served in `m` selections. */
  ghost function GroupServed(at: Cursors, sizes: seq<nat>, m: nat, g: nat): nat
    requires Fits(at, sizes)
  {
    if m == 0 then 0
    else GroupServed(at, sizes, m - 1, g) + if Picked(After(at, sizes, m - 1), sizes).0 == g then 1 else 0
  }

  /** How often endpoint `e` of group `g` did. */
  ghost function EndpointServed(at: Cursors, sizes: seq<nat>, m: nat, g: nat, e: nat): nat
    requires Fits(at, sizes)
  {
    if m == 0 then 0
    else EndpointServed(at, sizes, m - 1, g, e) + if Picked(After(at, sizes, m - 1), sizes) == (g, e) then 1 else 0
  }

  lemma WrapSucc(x: nat)
    ensures Wrap(Wrap(x) + 1) == Wrap(x + 1)
  {
  }

  lemma {:induction false} CursorAfter(at: Cursors, sizes: seq<nat>, m: nat)
    requires Fits(at, sizes)
    ensures After(at, sizes, m).cursor == Wrap(at.cursor + m)
  {
    if m == 0 {
      Small(at.cursor);
    } else {
      CursorAfter(at, sizes, m - 1);
      WrapSucc(at.cursor + (m - 1));
    }
  }

  lemma GroupNext(at: Cursors, sizes: seq<nat>, m: nat, g: nat)
    requires Fits(at, sizes)
    ensures After(at, sizes, m + 1) == Moved(After(at, sizes, m), sizes)
    ensures GroupServed(at, sizes, m + 1, g) == GroupServed(at, sizes, m, g) + if Picked(After(at, sizes, m), sizes).0 == g then 1 else 0
  {
  }

  lemma PickedGroup(at: Cursors, sizes: seq<nat>, x: nat)
    requires Fits(at, sizes) && at.cursor == Wrap(x)
    ensures Picked(at, sizes).0 == Slot(x, |sizes|)
  {
  }

  lemma GroupTurnsNext(at: Cursors, sizes: seq<nat>, m: nat, g: nat)
    requires Fits(at, sizes) && GroupServed(at, sizes, m, g) == Turns(g, at.cursor, m, |sizes|)
    ensures GroupServed(at, sizes, m + 1, g) == Turns(g, at.cursor, m + 1, |sizes|)
  {
    CursorAfter(at, sizes, m);
    GroupNext(at, sizes, m, g);
    PickedGroup(After(at, sizes, m), sizes, at.cursor + m);
    hide Moved, Wrap, Picked, After, Turns, GroupServed, Slot;
    TurnsNext(g, at.cursor, m, |sizes|);
  }

  /** A group is dealt turns as by the route's cursor alone. */
  lemma {:induction false} GroupTurns(at: Cursors, sizes: seq<nat>, m: nat, g: nat)
    requires Fits(at, sizes)
    ensures GroupServed(at, sizes, m, g) == Turns(g, at.cursor, m, |sizes|)
  {
    if m > 0 {
      GroupTurns(at, sizes, m - 1, g);
      GroupTurnsNext(at, sizes, m - 1, g);
    }
  }

  /** Its own cursor moves only at its turns. */
  lemma {:induction false} SequenceAfter(at: Cursors, sizes: seq<nat>, m: nat, g: nat)
    requires Fits(at, sizes) && g < |sizes|
    ensures After(at, sizes, m).sequences[g] == Wrap(at.sequences[g] + GroupServed(at, sizes, m, g))
  {
    if m == 0 {
      Small(at.sequences[g]);
    } else {
      hide Wrap, Moved, Picked, After, GroupServed;
      SequenceAfter(at, sizes, m - 1, g);
      GroupNext(at, sizes, m - 1, g);
      MovedSequence(After(at, sizes, m - 1), sizes, g);
      WrapSucc(at.sequences[g] + GroupServed(at, sizes, m - 1, g));
    }
  }

  lemma MovedSequence(at: Cursors, sizes: seq<nat>, g: nat)
    requires Fits(at, sizes) && g < |sizes|
    ensures Moved(at, sizes).sequences[g] == if Picked(at, sizes).0 == g then Wrap(at.sequences[g] + 1) else at.sequences[g]
  {
  }

  lemma PickedIs(at: Cursors, sizes: seq<nat>, g: nat, e: nat, x: nat)
    requires Fits(at, sizes) && g < |sizes| && at.sequences[g] == Wrap(x)
    ensures Picked(at, sizes) == (g, e) <==> Picked(at, sizes).0 == g && Slot(x, sizes[g]) == e
  {
  }

  /** Whether selection `m` went to endpoint `e` of group `g`, by the group's own cursor. */
  lemma ServedNext(at: Cursors, sizes: seq<nat>, m: nat, g: nat, e: nat)
    requires Fits(at, sizes) && g < |sizes|
    ensures var served := GroupServed(at, sizes, m, g);
            var turn := if Picked(After(at, sizes, m), sizes).0 == g then 1 else 0;
            && GroupServed(at, sizes, m + 1, g) == served + turn
            && EndpointServed(at, sizes, m + 1, g, e) ==
               EndpointServed(at, sizes, m, g, e) + if Slot(at.sequences[g] + served, sizes[g]) == e then turn else 0
  {
    hide Moved, Picked, Slot, Wrap;
    var after, served := After(at, sizes, m), GroupServed(at, sizes, m, g);
    SequenceAfter(at, sizes, m, g);
    PickedIs(after, sizes, g, e, at.sequences[g] + served);
  }

  /** So an endpoint is dealt turns as by its group's cursor, one at each of its turns. */
  lemma {:induction false} EndpointTurns(at: Cursors, sizes: seq<nat>, m: nat, g: nat, e: nat)
    requires Fits(at, sizes) && g < |sizes|
    ensures EndpointServed(at, sizes, m, g, e) == Turns(e, at.sequences[g], GroupServed(at, sizes, m, g), sizes[g])
  {
    if m == 0 {
      assert GroupServed(at, sizes, 0, g) == 0;
    } else {
      EndpointTurns(at, sizes, m - 1, g, e);
      EndpointNext(at, sizes, m - 1, g, e);
    }
  }

  lemma EndpointNext(at: Cursors, sizes: seq<nat>, m: nat, g: nat, e: nat)
    requires Fits(at, sizes) && g < |sizes|
    requires EndpointServed(at, sizes, m, g, e) == Turns(e, at.sequences[g], GroupServed(at, sizes, m, g), sizes[g])
    ensures EndpointServed(at, sizes, m + 1, g, e) == Turns(e, at.sequences[g], GroupServed(at, sizes, m + 1, g), sizes[g])
  {
    ServedNext(at, sizes, m, g, e);
    hide Turns, After, Picked, Slot, Wrap, GroupServed, EndpointServed;
    TurnsNext(e, at.sequences[g], GroupServed(at, sizes, m, g), sizes[g]);
  }

  lemma TurnsNext(i: nat, c: nat, m: nat, n: nat)
    requires n > 0
    ensures Turns(i, c, m + 1, n) == Turns(i, c, m, n) + if Slot(c + m, n) == i then 1 else 0
  {
  }

  /** The cursor does not wrap in the window, or its wrap goes unnoticed. */
  ghost predicate Smooth(c: nat, m: nat, n: nat)
    requires n > 0
  {
    c + m <= U64_SIZE || U64_SIZE % n == 0
  }

  lemma SmoothIsFair(i: nat, j: nat, c: nat, m: nat, n: nat)
    requires i < n && j < n && Smooth(c, m, n)
    ensures Turns(i, c, m, n) - Turns(j, c, m, n) <= 1
  {
    if c + m <= U64_SIZE {
      NoWrap(i, c, m, n);
      NoWrap(j, c, m, n);
      Fair(i, j, c, m, n);
    } else {
      FairAcrossWrap(n, i, j, c, m);
    }
  }

  /** Over any number of selections no group is ahead of another by more than one, and
      within a group no endpoint is. */
  lemma TwoLevelFair(at: Cursors, sizes: seq<nat>, m: nat, g: nat, h: nat, e: nat, f: nat)
    requires Fits(at, sizes) && g < |sizes| && h < |sizes| && e < sizes[g] && f < sizes[g]
    requires Smooth(at.cursor, m, |sizes|) && Smooth(at.sequences[g], m, sizes[g])
    ensures GroupServed(at, sizes, m, g) - GroupServed(at, sizes, m, h) <= 1
    ensures EndpointServed(at, sizes, m, g, e) - EndpointServed(at, sizes, m, g, f) <= 1
  {
    hide Turns;
    GroupTurns(at, sizes, m, g);
    GroupTurns(at, sizes, m, h);
    EndpointTurns(at, sizes, m, g, e);
    EndpointTurns(at, sizes, m, g, f);
    SmoothIsFair(g, h, at.cursor, m, |sizes|);
    AtMost(at, sizes, m, g);
    SmoothIsFair(e, f, at.sequences[g], GroupServed(at, sizes, m, g), sizes[g]);
  }

  lemma {:induction false} AtMost(at: Cursors, sizes: seq<nat>, m: nat, g: nat)
    requires Fits(at, sizes)
    ensures GroupServed(at, sizes, m, g) <= m
  {
    if m > 0 {
      AtMost(at, sizes, m - 1, g);
    }
  }

  // ---------------------------------------------------------------- the code is this machine

  /** What the groups' own cursors and candidate counts are. */
  ghost predicate Shows(groups: seq<MonitorGroup>, sequences: seq<nat>, sizes: seq<nat>)
    reads groups
  {
    && |groups| == |sequences| == |sizes|
    && (forall i :: 0 <= i < |groups| ==> groups[i].sequence == sequences[i])
    && (forall i :: 0 <= i < |groups| ==> |Candidates(groups[i].endpoints)| == sizes[i])
  }

  ghost predicate DistinctGroups(groups: seq<MonitorGroup>) {
    forall i, j :: 0 <= i < j < |groups| ==> groups[i] != groups[j]
  }

  /** A round-robin selection gives the endpoint whose turn it is and moves the cursors as
      the machine above does. */
  method SelectTurn(balancer: Balancer, route: string, pool: seq<MonitorGroup>, weight: string -> nat,
                    ghost groups: seq<MonitorGroup>, ghost before: Cursors, ghost sizes: seq<nat>)
    returns (r: Option<(string, string)>)
    requires Gathered(pool, groups, AvailableAt(Views(pool))) && DistinctGroups(groups)
    requires Fits(before, sizes) && Shows(groups, before.sequences, sizes)
    requires route in balancer.cursors && balancer.cursors[route] == before.cursor
    modifies balancer, pool
    ensures var after := Moved(before, sizes);
            Shows(groups, after.sequences, sizes) && route in balancer.cursors && balancer.cursors[route] == after.cursor
    ensures var (g, e) := Picked(before, sizes);
            r == Some((groups[g].target, Candidates(groups[g].endpoints)[e].address))
  {
    hide Candidates, AvailableAt, Moved, Picked, Views, TurnOf, Wrap, DistinctGroups;
    ghost var g := TurnOf(before.cursor, |groups|);
    ghost var at := AvailableAt(Views(pool));
    TurnIs(before, sizes, g);
    assert groups[g] == pool[at[g]] && forall i :: 0 <= i < |groups| ==> groups[i] in pool;
    hide Gathered, Fits;
    r := SelectNext(balancer, route, pool, weight, groups[g], at, before.cursor);
    forall i | 0 <= i < |groups| ensures groups[i] in pool && (i != g ==> groups[i] != groups[g]) {
      if i != g { Apart(groups, i, g); }
    }
    TurnShown(groups, g, before.sequences, sizes);
  }

  /** A round-robin selection moves the route's cursor and that of the group in turn. */
  method SelectNext(balancer: Balancer, route: string, pool: seq<MonitorGroup>, weight: string -> nat,
                    ghost group: MonitorGroup, ghost at: seq<nat>, ghost cursor: nat)
    returns (r: Option<(string, string)>)
    requires route in balancer.cursors && balancer.cursors[route] == cursor
    requires at == AvailableAt(Views(pool)) && at != []
    requires at[TurnOf(cursor, |at|)] < |pool| && group == pool[at[TurnOf(cursor, |at|)]]
    modifies balancer, pool
    ensures route in balancer.cursors && balancer.cursors[route] == Wrap(cursor + 1)
    ensures forall x :: x in pool ==> x.endpoints == old(x.endpoints)
    ensures TookTurn(pool, group, r)
  {
    hide Candidates, AvailableAt, Views, TurnOf, Wrap;
    ghost var chosen;
    r, chosen := balancer.Select(route, pool, LoadBalancing.RoundRobin, 0, weight);
  }

  lemma Apart(groups: seq<MonitorGroup>, i: nat, g: nat)
    requires DistinctGroups(groups) && i < |groups| && g < |groups| && i != g
    ensures groups[i] != groups[g]
  {
  }

  /** One group's cursor has moved on and no other's. */
  lemma TurnShown(groups: seq<MonitorGroup>, g: nat, sequences: seq<nat>, sizes: seq<nat>)
    requires g < |groups| == |sequences| == |sizes|
    requires forall i :: 0 <= i < |groups| && i != g ==> groups[i].sequence == sequences[i]
    requires forall i :: 0 <= i < |groups| ==> |Candidates(groups[i].endpoints)| == sizes[i]
    requires groups[g].sequence == Wrap(sequences[g] + 1)
    ensures Shows(groups, sequences[g := Wrap(sequences[g] + 1)], sizes)
  {
  }

  lemma TurnIs(at: Cursors, sizes: seq<nat>, g: nat)
    requires Fits(at, sizes) && g == TurnOf(at.cursor, |sizes|)
    ensures Picked(at, sizes) == (g, TurnOf(at.sequences[g], sizes[g]))
    ensures Moved(at, sizes) == Cursors(Wrap(at.cursor + 1), at.sequences[g := Wrap(at.sequences[g] + 1)])
  {
  }
}
