/** The connection log: size-triggered rotation by renaming, pruning, and a compressor
    on another thread behind a shared gate. Files are named by index and suffix. */
module Accounting {
  import opened Text

  datatype Suffix = Raw | Packed

  type Row = string

  /** `<log>.N` or `<log>.N.<extension>`. */
  datatype Name = Name(index: nat, suffix: Suffix)

  /** Rows a file decodes to; the header line every active file starts with is not one. */
  type Files = map<Name, seq<Row>>

  const HEADER_SIZE: nat := 160

  // ---------------------------------------------------------------- what rotation does

  function Pruned(files: Files, keep: nat): Files {
    map f | f in files && f.index <= keep :: files[f]
  }

  function Up(f: Name): Name { Name(f.index + 1, f.suffix) }

  function Down(f: Name): Name { Name(if f.index == 0 then 0 else f.index - 1, f.suffix) }

  /** Every index one higher. */
  function Shifted(files: Files): Files {
    map f | f in (set g | g in files :: Up(g)) :: files[Down(f)]
  }

  function Rotated(files: Files, active: seq<Row>, maxKeep: nat): Files {
    Shifted(Pruned(files, if maxKeep == 0 then 0 else maxKeep - 1))[Name(1, Raw) := active]
  }

  /** No file has index 0: that would collide with the next rotation. */
  ghost predicate Indexed(files: Files) {
    forall f :: f in files ==> f.index >= 1
  }

  // ---------------------------------------------------------------- the writer

  /** Names sorted by descending index, each once. */
  ghost predicate Descending(names: seq<Name>) {
    && (forall i, j :: 0 <= i < j < |names| ==> names[i].index >= names[j].index)
    && (forall i, j :: 0 <= i < j < |names| ==> names[i] != names[j])
  }

  method InsertName(f: Name, names: seq<Name>) returns (r: seq<Name>)
    requires Descending(names) && f !in names
    ensures Descending(r) && forall g :: g in r <==> g == f || g in names
  {
    var i := 0;
    while i < |names| && names[i].index > f.index
      invariant 0 <= i <= |names|
      invariant forall j :: 0 <= j < i ==> names[j].index > f.index
    {
      i := i + 1;
    }
    r := names[..i] + [f] + names[i..];
    forall j, k | 0 <= j < k < |r| ensures r[j].index >= r[k].index && r[j] != r[k] {
      assert r[j] == if j < i then names[j] else if j == i then f else names[j - 1];
      assert r[k] == if k < i then names[k] else if k == i then f else names[k - 1];
      assert r[j] in names || r[k] in names;
    }
    forall g ensures g in r <==> g == f || g in names {
      assert names == names[..i] + names[i..];
    }
  }

  /** Directory entries, sorted for the shift. */
  method SortedNames(files: Files) returns (names: seq<Name>)
    ensures Descending(names) && forall f :: f in names <==> f in files
  {
    names := [];
    var left := files.Keys;
    while left != {}
      invariant left <= files.Keys && Descending(names)
      invariant forall f :: f in names <==> f in files && f !in left
      decreases left
    {
      var f :| f in left;
      left := left - {f};
      names := InsertName(f, names);
    }
  }

  class RotatingWriter {
    var files: Files
    var active: seq<Row>
    var currentSize: nat
    var compressInFlight: bool
    const rotateSize: nat
    const maxKeep: nat

    ghost predicate Valid()
      reads this
    {
      Indexed(files)
    }

    constructor (rotateSize: nat, maxKeep: nat)
      ensures Valid() && files == map[] && active == [] && !compressInFlight
      ensures currentSize == HEADER_SIZE && this.rotateSize == rotateSize && this.maxKeep == maxKeep
    {
      files, active, currentSize, compressInFlight := map[], [], HEADER_SIZE, false;
      this.rotateSize, this.maxKeep := rotateSize, maxKeep;
    }

    /** A rename that would replace an existing file is not allowed here. */
    method Rename(f: Name, to: Name)
      requires f in files && to !in files
      modifies this`files
      ensures files == (old(files) - {f})[to := old(files)[f]]
    {
      files := (files - {f})[to := files[f]];
    }

    method Prune(keep: nat)
      modifies this`files
      ensures files == Pruned(old(files), keep)
    {
      var left := files.Keys;
      while left != {}
        invariant left <= files.Keys <= old(files).Keys
        invariant forall f :: f in old(files) && (f in left || f.index <= keep) ==> f in files
        invariant forall f :: f in files ==> files[f] == old(files)[f] && (f in left || f.index <= keep)
        decreases left
      {
        var f :| f in left;
        left := left - {f};
        if f.index > keep { files := files - {f}; }
      }
    }

    /** `rotate`: makes room, shifts the survivors from the highest index down, and
        turns the active file into the first rotated one. */
    method Rotate()
      requires Valid()
      modifies this`files, this`active, this`currentSize
      ensures Valid()
      ensures files == Rotated(old(files), old(active), maxKeep)
      ensures active == [] && currentSize == HEADER_SIZE
    {
      hide Todo, Descending, Shifted, Halfway;
      Prune(if maxKeep == 0 then 0 else maxKeep - 1);
      ghost var before := files;
      var names := SortedNames(files);
      ghost var todo := Todo(names, 0);
      TodoStart(names, files);
      var i := 0;
      while i < |names|
        invariant 0 <= i <= |names| && todo == Todo(names, i) && active == old(active)
        invariant Halfway(before, todo, files)
      {
        TodoNext(names, i);
        HalfwayNext(before, todo, files, names[i]);
        Rename(names[i], Up(names[i]));
        i := i + 1;
        todo := Todo(names, i);
      }
      HalfwayDone(before, todo, files, names);
      files := files[Name(1, Raw) := active];
      active, currentSize := [], HEADER_SIZE;
    }

    /** `write_record`; `true` when it rotated. */
    method WriteRecord(row: Row) returns (rotated: bool)
      requires Valid()
      modifies this`files, this`active, this`currentSize
      ensures Valid()
      ensures rotated == (old(currentSize) + |row| + 1 >= rotateSize && !compressInFlight)
      ensures if rotated
              then files == Rotated(old(files), old(active) + [row], maxKeep) && active == [] && currentSize == HEADER_SIZE
              else files == old(files) && active == old(active) + [row] && currentSize == old(currentSize) + |row| + 1
    {
      active := active + [row];
      currentSize := currentSize + |row| + 1;
      if currentSize >= rotateSize && !compressInFlight {
        Rotate();
        return true;
      }
      return false;
    }
  }

  /** The names still to be moved. */
  ghost function Todo(names: seq<Name>, i: nat): set<Name> {
    set j | i <= j < |names| :: names[j]
  }

  lemma TodoStart(names: seq<Name>, files: Files)
    requires forall f :: f in names <==> f in files
    ensures Halfway(files, Todo(names, 0), files)
  {
    assert forall f :: HalfwayAt(files, files.Keys, f) == Look(files, f) by { StartAt(files); }
    assert Todo(names, 0) == files.Keys by {
      forall f | f in files ensures f in Todo(names, 0) {
        var j :| 0 <= j < |names| && names[j] == f;
      }
    }
  }

  lemma StartAt(files: Files)
    ensures forall f :: HalfwayAt(files, files.Keys, f) == Look(files, f)
  {
  }

  lemma TodoNext(names: seq<Name>, i: nat)
    requires Descending(names) && i < |names|
    ensures names[i] in Todo(names, i) && Todo(names, i + 1) == Todo(names, i) - {names[i]}
    ensures forall f :: f in Todo(names, i) ==> f.index <= names[i].index
  {
    forall f | f in Todo(names, i) && f != names[i] ensures f in Todo(names, i + 1) {
      var j :| i <= j < |names| && names[j] == f;
    }
  }

  lemma SameFiles(a: Files, b: Files)
    requires forall f :: Look(a, f) == Look(b, f)
    ensures a == b
  {
    forall f ensures f in a <==> f in b { assert Look(a, f) == Look(b, f); }
    forall f | f in a ensures a[f] == b[f] { assert Look(a, f) == Look(b, f); }
  }

  /** Part way through the shift: the names in `todo` are where they were, all others
      one index higher. */
  function HalfwayAt(before: Files, todo: set<Name>, f: Name): Option<seq<Row>> {
    if f in todo then Look(before, f)
    else if f.index >= 1 && Down(f) !in todo then Look(before, Down(f))
    else None
  }

  ghost predicate Halfway(before: Files, todo: set<Name>, now: Files) {
    && todo <= before.Keys
    && (forall f, g :: f in todo && g in before && g !in todo ==> f.index <= g.index)
    && forall f :: Look(now, f) == HalfwayAt(before, todo, f)
  }

  /** Going down from the highest index, the next name up is never taken. */
  lemma HalfwayNext(before: Files, todo: set<Name>, now: Files, f: Name)
    requires Halfway(before, todo, now) && Indexed(before) && f in todo && forall g :: g in todo ==> g.index <= f.index
    ensures f in now && Up(f) !in now
    ensures Halfway(before, todo - {f}, (now - {f})[Up(f) := now[f]])
  {
    assert Look(now, f) == HalfwayAt(before, todo, f);
    assert Look(now, Up(f)) == HalfwayAt(before, todo, Up(f)) && Down(Up(f)) == f;
    var later := (now - {f})[Up(f) := now[f]];
    forall g ensures Look(later, g) == HalfwayAt(before, todo - {f}, g) {
      assert Look(now, g) == HalfwayAt(before, todo, g);
      assert g.index >= 1 && Down(g) == f ==> g == Up(f);
      if g == f { assert f.index >= 1 && Down(f).index < f.index; }
    }
  }

  lemma HalfwayDone(before: Files, todo: set<Name>, now: Files, names: seq<Name>)
    requires Halfway(before, todo, now) && todo == Todo(names, |names|) && Indexed(before)
    ensures now == Shifted(before) && Indexed(now) && Name(1, Raw) !in now
  {
    hide Shifted;
    assert todo == {};
    forall f ensures Look(now, f) == Look(Shifted(before), f) { ShiftedAt(before, f); }
    SameFiles(now, Shifted(before));
    forall f | f in now ensures f.index >= 2 { ShiftedAt(before, f); }
  }

  lemma ShiftedAt(files: Files, f: Name)
    ensures Look(Shifted(files), f) == if f.index >= 1 then Look(files, Down(f)) else None
  {
    if f.index >= 1 && Down(f) in files { assert f == Up(Down(f)); }
  }

  // ---------------------------------------------------------------- what the files decode to

  /** The rows kept under one index: the raw file while it exists. */
  function At(files: Files, i: nat): seq<Row> {
    if Name(i, Raw) in files then files[Name(i, Raw)]
    else if Name(i, Packed) in files then files[Name(i, Packed)]
    else []
  }

  /** All rotated rows, oldest first: from the highest index down. */
  function Decode(files: Files, n: nat): seq<Row> {
    if n == 0 then [] else At(files, n) + Decode(files, n - 1)
  }

  ghost predicate IsSuffix(s: seq<Row>, all: seq<Row>) {
    |s| <= |all| && all[|all| - |s|..] == s
  }

  lemma {:induction false} DecodeSame(a: Files, b: Files, n: nat)
    requires forall i :: 1 <= i <= n ==> At(a, i) == At(b, i)
    ensures Decode(a, n) == Decode(b, n)
  {
    if n > 0 { DecodeSame(a, b, n - 1); }
  }

  lemma {:induction false} DecodeShift(a: Files, b: Files, n: nat)
    requires forall i: nat :: 1 <= i <= n ==> At(b, i + 1) == At(a, i)
    ensures Decode(b, n + 1) == Decode(a, n) + At(b, 1)
  {
    hide At;
    if n == 0 {
      assert Decode(b, 0) == [] && At(b, 1) + [] == [] + At(b, 1);
    } else {
      DecodeShift(a, b, n - 1);
    }
  }

  lemma {:induction false} DecodePrefix(files: Files, m: nat, n: nat)
    requires m <= n
    ensures IsSuffix(Decode(files, m), Decode(files, n))
  {
    if m < n { DecodePrefix(files, m, n - 1); }
  }

  function Room(maxKeep: nat): nat { if maxKeep == 0 then 0 else maxKeep - 1 }

  lemma RotatedIndexed(files: Files, active: seq<Row>, maxKeep: nat)
    ensures Indexed(Rotated(files, active, maxKeep))
  {
    hide Shifted;
    var pruned := Pruned(files, Room(maxKeep));
    forall f | f in Shifted(pruned) ensures f.index >= 1 { ShiftedAt(pruned, f); }
  }

  /** What rotation leaves under index `i`. */
  lemma RotatedAt(files: Files, active: seq<Row>, maxKeep: nat, i: nat, x: Suffix)
    requires Indexed(files)
    ensures Look(Rotated(files, active, maxKeep), Name(i, x)) ==
      if i == 1 && x == Raw then Some(active)
      else if 2 <= i <= Room(maxKeep) + 1 then Look(files, Name(i - 1, x))
      else None
  {
    hide Shifted;
    ShiftedAt(Pruned(files, Room(maxKeep)), Name(i, x));
  }

  // ---------------------------------------------------------------- two threads

  /** The writer between the steps of handling one record. */
  datatype Writer = Ready | Rotating | Spawning

  /** The compressor: files left to do, and what it is doing to the current one. */
  datatype Stage = Between | Packing(index: nat) | Finished(index: nat)
  datatype Job = NoJob | Job(left: seq<nat>, stage: Stage)

  datatype Settings = Settings(rotateSize: nat, maxKeep: nat, compressAfter: nat, compress: bool)

  /** `depth` is the highest index in use; `all` every row ever written. */
  datatype World = World(files: Files, depth: nat, active: seq<Row>, size: nat, gate: bool, writer: Writer, job: Job, all: seq<Row>)

  const START: World := World(map[], 0, [], HEADER_SIZE, false, Ready, NoJob, [])

  datatype Action =
    | Append(row: Row)
    | DoRotate
    | Spawn(candidates: seq<nat>)
    | StartPack(partial: seq<Row>)
    | FinishPack
    | RemoveRaw
    | GiveUp
    | EndBatch

  /** `compression_candidates`: raw files past the boundary, lowest index first. */
  ghost predicate Candidates(cs: seq<nat>, files: Files, s: Settings) {
    && (forall i :: i in cs <==> s.compress && i > s.compressAfter && Name(i, Raw) in files)
    && (forall i, j :: 0 <= i < j < |cs| ==> cs[i] < cs[j])
  }

  ghost predicate Enabled(w: World, a: Action, s: Settings) {
    match a
    case Append(_) => w.writer == Ready
    case DoRotate => w.writer == Rotating
    case Spawn(cs) => w.writer == Spawning && Candidates(cs, w.files, s)
    case StartPack(_) => w.job.Job? && w.job.stage.Between? && w.job.left != []
    case FinishPack => w.job.Job? && w.job.stage.Packing?
    case RemoveRaw => w.job.Job? && w.job.stage.Finished?
    case GiveUp => w.job.Job? && !w.job.stage.Between?
    case EndBatch => w.job.Job? && w.job.stage.Between? && w.job.left == []
  }

  function Min(a: nat, b: nat): nat { if a < b then a else b }

  function Take(w: World, a: Action, s: Settings): World {
    match a
    case Append(row) =>
      var size := w.size + |row| + 1;
      w.(active := w.active + [row], all := w.all + [row], size := size,
         writer := if size >= s.rotateSize && !w.gate then Rotating else Ready)
    case DoRotate =>
      w.(files := Rotated(w.files, w.active, s.maxKeep), depth := Min(w.depth, Room(s.maxKeep)) + 1,
          active := [], size := HEADER_SIZE, writer := Spawning)
    case Spawn(cs) =>
      if cs == [] || w.gate then w.(writer := Ready) else w.(writer := Ready, gate := true, job := Job(cs, Between))
    case StartPack(partial) =>
      if w.job.NoJob? || w.job.left == [] then w
      else
        var i := w.job.left[0];
        if Name(i, Raw) in w.files
        then w.(files := w.files[Name(i, Packed) := partial], job := Job(w.job.left[1..], Packing(i)))
        else w.(job := Job(w.job.left[1..], Between))
    case FinishPack =>
      if w.job.NoJob? || !w.job.stage.Packing? then w
      else w.(files := w.files[Name(w.job.stage.index, Packed) := At(w.files, w.job.stage.index)],
               job := w.job.(stage := Finished(w.job.stage.index)))
    case RemoveRaw =>
      if w.job.NoJob? || !w.job.stage.Finished? then w
      else w.(files := w.files - {Name(w.job.stage.index, Raw)}, job := w.job.(stage := Between))
    case GiveUp => if w.job.NoJob? then w else w.(job := w.job.(stage := Between))
    case EndBatch => w.(job := NoJob, gate := false)
  }

  /** Exactly the indexes 1 to `depth` are in use. */
  ghost predicate Dense(w: World) {
    forall i: nat :: (Name(i, Raw) in w.files || Name(i, Packed) in w.files) <==> 1 <= i <= w.depth
  }

  ghost predicate JobSafe(w: World) {
    match w.job
    case NoJob => !w.gate
    case Job(left, stage) =>
      && w.gate && w.writer == Ready
      && (!stage.Between? ==> Name(stage.index, Raw) in w.files && Name(stage.index, Packed) in w.files)
      && (stage.Finished? ==> w.files[Name(stage.index, Packed)] == w.files[Name(stage.index, Raw)])
  }

  /** The log at any moment, between or inside the steps of either thread. */
  ghost predicate Safe(w: World, s: Settings) {
    && Indexed(w.files) && Dense(w) && w.depth <= (if s.maxKeep > 0 then s.maxKeep else 1)
    && JobSafe(w)
    && IsSuffix(Decode(w.files, w.depth) + w.active, w.all)
  }

  lemma RotateSafe(w: World, s: Settings)
    requires Safe(w, s) && w.writer == Rotating
    ensures Safe(Take(w, DoRotate, s), s)
  {
    hide Rotated;
    var w' := Take(w, DoRotate, s);
    var m := Min(w.depth, Room(s.maxKeep));
    RotatedIndexed(w.files, w.active, s.maxKeep);
    forall i: nat ensures (Name(i, Raw) in w'.files || Name(i, Packed) in w'.files) <==> 1 <= i <= w'.depth {
      RotatedAt(w.files, w.active, s.maxKeep, i, Raw);
      RotatedAt(w.files, w.active, s.maxKeep, i, Packed);
    }
    forall i: nat | 1 <= i <= m ensures At(w'.files, i + 1) == At(w.files, i) {
      RotatedAt(w.files, w.active, s.maxKeep, i + 1, Raw);
      RotatedAt(w.files, w.active, s.maxKeep, i + 1, Packed);
    }
    RotatedAt(w.files, w.active, s.maxKeep, 1, Raw);
    DecodeShift(w.files, w'.files, m);
    assert Decode(w'.files, w'.depth) + w'.active == Decode(w.files, m) + w.active;
    RotatedSuffix(w, m);
  }

  lemma RotatedSuffix(w: World, m: nat)
    requires m <= w.depth && IsSuffix(Decode(w.files, w.depth) + w.active, w.all)
    ensures IsSuffix(Decode(w.files, m) + w.active, w.all)
  {
    hide Decode;
    var tail, whole := Decode(w.files, m), Decode(w.files, w.depth);
    DecodePrefix(w.files, m, w.depth);
    SuffixAppend(tail, whole, w.active);
    SuffixTrans(tail + w.active, whole + w.active, w.all);
  }

  lemma SuffixAppend(a: seq<Row>, b: seq<Row>, c: seq<Row>)
    requires IsSuffix(a, b)
    ensures IsSuffix(a + c, b + c)
  {
    var s := b + c;
    assert s[|s| - |a + c|..] == b[|b| - |a|..] + c;
  }

  lemma SuffixTrans(a: seq<Row>, b: seq<Row>, c: seq<Row>)
    requires IsSuffix(a, b) && IsSuffix(b, c)
    ensures IsSuffix(a, c)
  {
    assert c[|c| - |a|..] == c[|c| - |b|..][|b| - |a|..];
  }

  lemma AppendSafe(w: World, row: Row, s: Settings)
    requires Safe(w, s) && w.writer == Ready
    ensures Safe(Take(w, Append(row), s), s)
  {
    var before := Decode(w.files, w.depth) + w.active;
    SuffixAppend(before, w.all, [row]);
    assert Decode(w.files, w.depth) + (w.active + [row]) == before + [row];
  }

  /** A compressor step leaves every index decoding to the same rows. */
  predicate OfCompressor(a: Action) {
    a.StartPack? || a.FinishPack? || a.RemoveRaw? || a.GiveUp? || a.EndBatch?
  }

  lemma PackKeepsRows(w: World, a: Action, s: Settings, i: nat)
    requires Safe(w, s) && Enabled(w, a, s) && OfCompressor(a)
    ensures At(Take(w, a, s).files, i) == At(w.files, i)
  {
    hide Decode, IsSuffix, Dense;
  }

  lemma PackKeepsShape(w: World, a: Action, s: Settings)
    requires Safe(w, s) && Enabled(w, a, s) && OfCompressor(a)
    ensures var w' := Take(w, a, s);
            Indexed(w'.files) && Dense(w') && JobSafe(w') && w'.depth == w.depth && w'.active == w.active && w'.all == w.all
  {
    hide Decode, IsSuffix;
  }

  lemma PackSafe(w: World, a: Action, s: Settings)
    requires Safe(w, s) && Enabled(w, a, s) && OfCompressor(a)
    ensures Safe(Take(w, a, s), s)
  {
    hide Take, Enabled, At, Decode, IsSuffix, Dense, JobSafe, Indexed;
    var w' := Take(w, a, s);
    PackKeepsShape(w, a, s);
    forall i: nat ensures At(w'.files, i) == At(w.files, i) { PackKeepsRows(w, a, s, i); }
    DecodeSame(w.files, w'.files, w.depth);
  }

  lemma TakeSafe(w: World, a: Action, s: Settings)
    requires Safe(w, s) && Enabled(w, a, s)
    ensures Safe(Take(w, a, s), s)
  {
    match a
    case Append(row) => AppendSafe(w, row, s);
    case DoRotate => RotateSafe(w, s);
    case Spawn(_) =>
    case _ => PackSafe(w, a, s);
  }

  ghost predicate Behaviour(ws: seq<World>, actions: seq<Action>, s: Settings) {
    && |ws| == |actions| + 1 && ws[0] == START
    && forall i :: 0 <= i < |actions| ==> Enabled(ws[i], actions[i], s) && ws[i + 1] == Take(ws[i], actions[i], s)
  }

  /** From an empty directory, in every interleaving of writes, rotations and compression
      steps, failed ones included: the decoded files from the highest index down to the
      active file are the last rows written, no index exceeds the limit, and a rotation
      never overlaps a compression. */
  lemma {:induction false} LogConserved(ws: seq<World>, actions: seq<Action>, s: Settings, i: nat)
    requires Behaviour(ws, actions, s) && i < |ws|
    ensures var w := ws[i];
            && Safe(w, s)
            && IsSuffix(Decode(w.files, w.depth) + w.active, w.all)
            && (forall f :: f in w.files ==> 1 <= f.index <= (if s.maxKeep > 0 then s.maxKeep else 1))
            && (w.writer == Rotating ==> w.job.NoJob?)
    decreases i
  {
    hide Take, Enabled, Decode;
    if i == 0 {
      StartSafe(s);
    } else {
      LogConserved(ws, actions, s, i - 1);
      TakeSafe(ws[i - 1], actions[i - 1], s);
    }
    var w := ws[i];
    forall f | f in w.files ensures 1 <= f.index <= (if s.maxKeep > 0 then s.maxKeep else 1) {
      assert f == Name(f.index, f.suffix) && (f.suffix == Raw || f.suffix == Packed);
    }
  }

  lemma StartSafe(s: Settings)
    ensures Safe(START, s)
  {
  }

  // ---------------------------------------------------------------- which file holds what

  /** The rows written between two rotations, in order; the last part is still open. */
  function Segments(actions: seq<Action>): (segments: seq<seq<Row>>)
    ensures |segments| >= 1
  {
    if actions == [] then [[]]
    else
      var before := Segments(actions[..|actions| - 1]);
      match actions[|actions| - 1]
      case Append(row) => before[|before| - 1 := before[|before| - 1] + [row]]
      case DoRotate => before + [[]]
      case _ => before
  }

  /** The active file holds the open part, and file `k` the part closed by the `k`-th last
      rotation, as far back as the limit reaches. */
  ghost predicate Archived(w: World, segments: seq<seq<Row>>, s: Settings) {
    && |segments| >= 1 && w.active == segments[|segments| - 1]
    && w.depth == Min(|segments| - 1, if s.maxKeep > 0 then s.maxKeep else 1)
    && forall k: nat :: 1 <= k <= w.depth ==> At(w.files, k) == segments[|segments| - 1 - k]
  }

  lemma RotateArchives(w: World, segments: seq<seq<Row>>, s: Settings)
    requires Safe(w, s) && Archived(w, segments, s)
    ensures Archived(Take(w, DoRotate, s), segments + [[]], s)
  {
    hide Rotated, Decode, IsSuffix, JobSafe;
    var w', later := Take(w, DoRotate, s), segments + [[]];
    forall k: nat | 1 <= k <= w'.depth ensures At(w'.files, k) == later[|later| - 1 - k] {
      RotatedAt(w.files, w.active, s.maxKeep, k, Raw);
      RotatedAt(w.files, w.active, s.maxKeep, k, Packed);
      if k > 1 { assert At(w.files, k - 1) == segments[|segments| - k]; }
    }
  }

  lemma AppendArchives(w: World, row: Row, segments: seq<seq<Row>>, s: Settings)
    requires Archived(w, segments, s)
    ensures Archived(Take(w, Append(row), s), segments[|segments| - 1 := segments[|segments| - 1] + [row]], s)
  {
    hide At;
  }

  lemma TakeArchives(w: World, a: Action, segments: seq<seq<Row>>, s: Settings)
    requires Safe(w, s) && Enabled(w, a, s) && Archived(w, segments, s)
    requires !a.Append? && !a.DoRotate?
    ensures Archived(Take(w, a, s), segments, s)
  {
    if OfCompressor(a) {
      PackKeepsShape(w, a, s);
      forall k: nat ensures At(Take(w, a, s).files, k) == At(w.files, k) { PackKeepsRows(w, a, s, k); }
      hide Take, Enabled, At, Safe;
    }
  }

  /** In every interleaving, each file holds exactly the rows written between two
      rotations, and nothing within the limit is missing. */
  lemma {:induction false} ArchiveExact(ws: seq<World>, actions: seq<Action>, s: Settings, i: nat)
    requires Behaviour(ws, actions, s) && i < |ws|
    ensures Archived(ws[i], Segments(actions[..i]), s)
    decreases i
  {
    if i > 0 {
      var w, a, segments := ws[i - 1], actions[i - 1], Segments(actions[..i - 1]);
      ArchiveExact(ws, actions, s, i - 1);
      LogConserved(ws, actions, s, i - 1);
      assert actions[..i][..i - 1] == actions[..i - 1];
      hide Take, Enabled, Archived, Safe;
      match a
      case Append(row) => AppendArchives(w, row, segments, s);
      case DoRotate => RotateArchives(w, segments, s);
      case _ => TakeArchives(w, a, segments, s);
    }
  }

  // ---------------------------------------------------------------- when a file is full

  /** The bytes of rows, line ends included. */
  function Bytes(rows: seq<Row>): nat {
    if rows == [] then 0 else Bytes(rows[..|rows| - 1]) + |rows[|rows| - 1]| + 1
  }

  lemma SizeStep(w: World, a: Action, s: Settings)
    requires w.size == HEADER_SIZE + Bytes(w.active)
    ensures Take(w, a, s).size == HEADER_SIZE + Bytes(Take(w, a, s).active)
  {
    hide Rotated, At;
    if a.Append? {
      assert (w.active + [a.row])[..|w.active|] == w.active;
    }
  }

  lemma {:induction false} SizeCounts(ws: seq<World>, actions: seq<Action>, s: Settings, i: nat)
    requires Behaviour(ws, actions, s) && i < |ws|
    ensures ws[i].size == HEADER_SIZE + Bytes(ws[i].active)
    decreases i
  {
    hide Take, Enabled;
    if i > 0 {
      SizeCounts(ws, actions, s, i - 1);
      SizeStep(ws[i - 1], actions[i - 1], s);
    }
  }

  /** In every run a row is followed by a rotation exactly when the header and the rows of
      the active file reach the limit and no compression is under way. */
  lemma RotatesAtLimit(ws: seq<World>, actions: seq<Action>, s: Settings, i: nat)
    requires Behaviour(ws, actions, s) && i < |actions| && actions[i].Append?
    ensures ws[i + 1].writer == Rotating <==> 160 + Bytes(ws[i + 1].active) >= s.rotateSize && ws[i].job.NoJob?
  {
    SizeCounts(ws, actions, s, i + 1);
    LogConserved(ws, actions, s, i);
    hide Bytes, Decode, IsSuffix, Dense, Rotated, At;
  }
}
