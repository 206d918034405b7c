/** Configuration revisions: the store that numbers them and the runtime loop that applies
    them and rolls back. */
module Revisions {
  import opened Text

  type Config = string

  datatype Stored = Stored(revision: nat, config: Config)

  const HISTORY_LIMIT: nat := 50

  // ---------------------------------------------------------------- the store

  datatype Revs = Revs(current: Option<Stored>, counter: Option<nat>, history: map<nat, Stored>)

  function Counter(s: Revs): nat {
    if s.counter.Some? then s.counter.value else 0
  }

  /** The current revision is the counter's and the newest in the history, which files
      every revision under its own number. */
  ghost predicate Sound(s: Revs) {
    match s.counter
    case None => s.current.None? && s.history == map[]
    case Some(n) =>
      && s.current.Some? && s.current.value.revision == n
      && n in s.history && s.history[n] == s.current.value
      && (forall k :: k in s.history ==> k <= n && s.history[k].revision == k)
  }

  /** The batch a save writes once it has read the counter as `read`. */
  function Committed(s: Revs, read: nat, config: Config): Revs {
    var stored := Stored(read + 1, config);
    Revs(Some(stored), Some(read + 1), s.history[read + 1 := stored])
  }

  /** How many revisions in the history are newer. */
  function Newer(history: map<nat, Stored>, k: nat): set<nat> {
    set j | j in history && j > k
  }

  /** Retention keeps the newest revisions. */
  function Retained(history: map<nat, Stored>): map<nat, Stored> {
    map k | k in history && |Newer(history, k)| < HISTORY_LIMIT :: history[k]
  }

  class ConfigStore {
    var revs: Revs

    /** A valid configuration becomes the next revision; an invalid one, or one past the
        last number, changes nothing. */
    method SaveConfig(config: Config, valid: bool) returns (r: Result<Stored, string>)
      requires Sound(revs)
      modifies this
      ensures Sound(revs)
      ensures r.Ok? <==> valid && Counter(old(revs)) + 1 < U64
      ensures r.Err? ==> revs == old(revs)
      ensures r.Ok? ==> r.value == Stored(Counter(old(revs)) + 1, config) && revs.current == Some(r.value)
      ensures r.Ok? ==> revs.counter == Some(r.value.revision) && Look(revs.history, r.value.revision) == Some(r.value)
      ensures r.Ok? ==> forall k :: k in old(revs).history ==> k in revs.history && revs.history[k] == old(revs).history[k]
    {
      if !valid {
        return Err("invalid configuration");
      }
      var read := Counter(revs);
      if read + 1 >= U64 {
        return Err("configuration revision overflow");
      }
      revs := Committed(revs, read, config);
      return Ok(revs.current.value);
    }

    /** Initial setup writes revision 1, once. */
    method Bootstrap(config: Config, valid: bool) returns (r: Result<Stored, string>)
      requires Sound(revs)
      modifies this
      ensures Sound(revs)
      ensures r.Ok? <==> valid && old(revs).current.None?
      ensures if r.Ok? then revs.current == Some(r.value) && r.value == Stored(1, config) else revs == old(revs)
    {
      if revs.current.Some? {
        return Err("initial setup is already complete");
      }
      if !valid {
        return Err("invalid configuration");
      }
      revs := Committed(revs, 0, config);
      return Ok(revs.current.value);
    }

    method CleanupHistory()
      requires Sound(revs)
      modifies this
      ensures Sound(revs) && revs.current == old(revs).current && revs.counter == old(revs).counter
      ensures forall k :: k in revs.history <==> k in old(revs).history && |Newer(old(revs).history, k)| < 50
      ensures forall k :: k in revs.history ==> revs.history[k] == old(revs).history[k]
    {
      assert revs.counter.Some? ==> Newer(revs.history, revs.counter.value) == {};
      revs := revs.(history := Retained(revs.history));
    }
  }

  // ---------------------------------------------------------------- a save in two steps

  /** A save that acts on a counter read earlier leaves the store sound exactly when at most
      one revision was saved in between. */
  lemma CommitSoundIff(s: Revs, read: nat, config: Config)
    requires Sound(s) && read <= Counter(s)
    ensures Sound(Committed(s, read, config)) <==> read + 1 >= Counter(s)
  {
    if read + 1 < Counter(s) {
      assert Counter(s) in Committed(s, read, config).history;
    }
  }

  /** With exactly one in between, that one is gone: another configuration has its number. */
  lemma CommitOverwrites(s: Revs, read: nat, config: Config)
    requires Sound(s) && read + 1 == Counter(s)
    ensures var after := Committed(s, read, config);
            && Counter(after) == Counter(s) && after.current == Some(Stored(Counter(s), config))
            && (s.current.value.config != config ==> forall k :: k in after.history ==> after.history[k] != s.current.value)
  {
  }

  // ---------------------------------------------------------------- the last good revision

  /** The slot holds the newest of these revisions. */
  ghost predicate NewestOf(slot: Option<Stored>, proven: set<Stored>) {
    match slot
    case None => proven == {}
    case Some(s) => s in proven && forall p :: p in proven ==> p.revision <= s.revision
  }

  /** `store_last_good`: only a newer revision replaces what is there. */
  function Keep(slot: Option<Stored>, s: Stored): Option<Stored> {
    if slot.Some? && slot.value.revision >= s.revision then slot else Some(s)
  }

  /** Who saves: the control API, one request at a time under its lock, and the runtime loop
      when it rolls back, which does not take that lock. */
  datatype Saver = Api | Loop

  /** A save between its read of the counter and its write. */
  datatype Pending = Pending(read: nat, config: Config)

  /** `edited` is what the API's last save returned. */
  datatype World = World(
    revs: Revs,
    slot: Option<Stored>,
    phase: Phase,
    pending: map<Saver, Pending>,
    edited: Option<Stored>,
    record: Record)

  datatype Phase = Running(applied: Stored) | RollingBack | Stopped | Failed

  /** For the statements only: everything ever saved, in order; the revisions proven to work
      since the slot was last taken; and how often applying has failed since then. */
  datatype Record = Record(log: seq<Stored>, proven: set<Stored>, failures: nat)

  datatype Step =
    | BeginEdit(config: Config)
    | Commit(saver: Saver)
    | HotApplied
    | Reload
    | Fail(savable: bool)
    | Stop
    | Cleanup

  predicate Alive(w: World) {
    w.phase.Running? || w.phase.RollingBack?
  }

  ghost predicate Enabled(w: World, step: Step) {
    match step
    case BeginEdit(_) => Alive(w) && Api !in w.pending && Counter(w.revs) + 1 < U64
    case Commit(saver) => Alive(w) && saver in w.pending
    case HotApplied => Alive(w) && w.edited.Some?
    case Reload => w.phase.Running?
    case Fail(savable) => w.phase.Running? && (savable ==> Counter(w.revs) + 1 < U64)
    case Stop => w.phase.Running?
    case Cleanup => Alive(w)
  }

  function Proved(w: World, s: Stored): World {
    w.(slot := Keep(w.slot, s), record := w.record.(proven := w.record.proven + {s}, failures := 0))
  }

  /** A failed revision takes the slot and starts to save what was in it; with nothing in
      it, or if that cannot be saved, the loop ends. */
  function TakenBack(w: World, savable: bool): World {
    var taken := w.(slot := None, record := w.record.(proven := {}, failures := w.record.failures + 1));
    if w.slot.None? || !savable then taken.(phase := Failed)
    else taken.(phase := RollingBack, pending := w.pending[Loop := Pending(Counter(w.revs), w.slot.value.config)])
  }

  /** The write of a save; the loop goes on with what it saved. */
  function Written(w: World, saver: Saver): World
    requires saver in w.pending
  {
    var revs := Committed(w.revs, w.pending[saver].read, w.pending[saver].config);
    var stored := revs.current.value;
    var after := w.(revs := revs, pending := w.pending - {saver}, record := w.record.(log := w.record.log + [stored]));
    if saver == Loop then after.(phase := Running(stored)) else after.(edited := Some(stored))
  }

  ghost function Take(w: World, step: Step): World
    requires Enabled(w, step)
  {
    match step
    case BeginEdit(config) => w.(pending := w.pending[Api := Pending(Counter(w.revs), config)])
    case Commit(saver) => Written(w, saver)
    case HotApplied => Proved(w, w.edited.value)
    case Reload =>
      var after := Proved(w, w.phase.applied);
      after.(phase := if after.revs.current.Some? then Running(after.revs.current.value) else Failed)
    case Fail(savable) => TakenBack(w, savable)
    case Stop => w.(phase := Stopped)
    case Cleanup => w.(revs := w.revs.(history := Retained(w.revs.history)))
  }

  /** Every number is greater than those before it. */
  ghost predicate Increasing(log: seq<Stored>) {
    forall i, j :: 0 <= i < j < |log| ==> log[i].revision < log[j].revision
  }

  /** No number was used twice, the last one is the counter's, and what has been applied,
      edited or proven was saved. */
  ghost predicate Logged(w: World) {
    && Increasing(w.record.log)
    && (forall i :: 0 <= i < |w.record.log| ==> w.record.log[i].revision <= Counter(w.revs))
    && (w.revs.current.Some? ==> w.revs.current.value in w.record.log)
    && (w.phase.Running? ==> w.phase.applied in w.record.log)
    && (w.edited.Some? ==> w.edited.value in w.record.log)
    && (forall p :: p in w.record.proven ==> p in w.record.log)
  }

  /** The state of the loop. */
  ghost predicate Steady(w: World) {
    && (Alive(w) ==> w.revs.counter.Some?)
    && (w.phase.RollingBack? ==> Loop in w.pending)
    && (w.phase.Running? ==> Loop !in w.pending)
    && (Alive(w) && w.record.failures > 0 ==> w.slot.None? && w.record.failures == 1)
    && (forall saver :: saver in w.pending ==> w.pending[saver].read <= Counter(w.revs))
  }

  ghost predicate Safe(w: World) {
    Sound(w.revs) && NewestOf(w.slot, w.record.proven) && Logged(w) && Steady(w)
  }

  /** A write finds the counter as its save read it. */
  ghost predicate Fresh(w: World, step: Step) {
    step.Commit? && step.saver in w.pending ==> w.pending[step.saver].read == Counter(w.revs)
  }

  lemma FreshCommit(w: World, saver: Saver)
    requires Safe(w) && Enabled(w, Commit(saver)) && Fresh(w, Commit(saver))
    ensures Safe(Written(w, saver))
  {
    var after := Written(w, saver);
    CommitSoundIff(w.revs, w.pending[saver].read, w.pending[saver].config);
    hide Sound, NewestOf;
    assert after.record.log[|w.record.log|] == after.revs.current.value;
    assert after.revs.current.value in after.record.log;
  }

  lemma StaleCommit(w: World, saver: Saver)
    requires Safe(w) && Enabled(w, Commit(saver)) && !Fresh(w, Commit(saver))
    ensures !Safe(Written(w, saver)) && !Increasing(Written(w, saver).record.log)
  {
    var log, after := w.record.log, Written(w, saver);
    var i :| 0 <= i < |log| && log[i] == w.revs.current.value;
    assert after.record.log[i] == log[i] && after.record.log[|log|] == after.revs.current.value;
  }

  lemma CleanupSound(s: Revs)
    requires Sound(s)
    ensures Sound(s.(history := Retained(s.history)))
  {
    assert s.counter.Some? ==> Newer(s.history, s.counter.value) == {};
  }

  lemma KeepNewest(slot: Option<Stored>, proven: set<Stored>, s: Stored)
    requires NewestOf(slot, proven)
    ensures NewestOf(Keep(slot, s), proven + {s})
  {
  }

  lemma OtherSafe(w: World, step: Step)
    requires Safe(w) && Enabled(w, step) && !step.Commit?
    ensures Safe(Take(w, step))
  {
    match step {
      case HotApplied => KeepNewest(w.slot, w.record.proven, w.edited.value);
      case Reload => KeepNewest(w.slot, w.record.proven, w.phase.applied);
      case Cleanup => CleanupSound(w.revs);
      case _ =>
    }
    hide Sound, Increasing;
  }

  /** A step keeps the store sound, the numbers unused before and the slot the newest proven
      revision exactly when it does not write by a counter that has moved on. */
  lemma StepSafeIff(w: World, step: Step)
    requires Safe(w) && Enabled(w, step)
    ensures Safe(Take(w, step)) <==> Fresh(w, step)
  {
    if step.Commit? {
      if Fresh(w, step) {
        FreshCommit(w, step.saver);
      } else {
        StaleCommit(w, step.saver);
      }
    } else {
      OtherSafe(w, step);
    }
  }

  ghost predicate Behaviour(ws: seq<World>, steps: seq<Step>) {
    && |ws| == |steps| + 1
    && (forall i :: 0 <= i < |steps| ==> Enabled(ws[i], steps[i]) && ws[i + 1] == Take(ws[i], steps[i]))
  }

  lemma {:induction false} SafeUpTo(ws: seq<World>, steps: seq<Step>, n: nat)
    requires Behaviour(ws, steps) && Safe(ws[0]) && n <= |steps|
    requires forall i :: 0 <= i < n ==> Fresh(ws[i], steps[i])
    ensures forall i :: 0 <= i <= n ==> Safe(ws[i])
  {
    hide Take, Enabled, Safe, Fresh;
    if n > 0 {
      SafeUpTo(ws, steps, n - 1);
      assert Safe(ws[n - 1]) && Enabled(ws[n - 1], steps[n - 1]) && ws[n] == Take(ws[n - 1], steps[n - 1]);
      StepSafeIff(ws[n - 1], steps[n - 1]);
    }
  }

  /** Over every run of edits, hot applies, reloads and roll-backs, the two savers
      interleaved: the store is sound, every revision has a new number and the slot holds
      the newest proven one, exactly as long as no save writes by a stale counter. */
  lemma SafeIffFresh(ws: seq<World>, steps: seq<Step>)
    requires Behaviour(ws, steps) && Safe(ws[0])
    ensures (forall i :: 0 <= i < |ws| ==> Safe(ws[i])) <==> (forall i :: 0 <= i < |steps| ==> Fresh(ws[i], steps[i]))
  {
    hide Take, Enabled, Safe, Fresh;
    if forall i :: 0 <= i < |ws| ==> Safe(ws[i]) {
      forall i | 0 <= i < |steps| ensures Fresh(ws[i], steps[i]) {
        assert Safe(ws[i]) && Safe(ws[i + 1]) && Enabled(ws[i], steps[i]) && ws[i + 1] == Take(ws[i], steps[i]);
        StepSafeIff(ws[i], steps[i]);
      }
    }
    if forall i :: 0 <= i < |steps| ==> Fresh(ws[i], steps[i]) {
      SafeUpTo(ws, steps, |steps|);
    }
  }

  // ---------------------------------------------------------------- saves that do not overlap

  /** A save starts only when no other is under way. */
  ghost predicate Serial(w: World, step: Step) {
    step.BeginEdit? || step.Fail? ==> w.pending == map[]
  }

  ghost predicate SafeSerial(w: World) {
    && Safe(w)
    && (forall saver :: saver in w.pending ==> w.pending[saver].read == Counter(w.revs))
    && (forall a, b :: a in w.pending && b in w.pending ==> a == b)
  }

  lemma SerialKeeps(w: World, step: Step)
    requires SafeSerial(w) && Enabled(w, step) && Serial(w, step)
    ensures SafeSerial(Take(w, step)) && w.record.log <= Take(w, step).record.log
  {
    StepSafeIff(w, step);
    hide Safe;
  }

  /** If saves do not overlap, every run keeps all of that, and whatever was saved stays the
      first part of what has been saved. */
  lemma {:induction false} SerialRunSafe(ws: seq<World>, steps: seq<Step>, n: nat)
    requires Behaviour(ws, steps) && SafeSerial(ws[0]) && n <= |steps|
    requires forall i :: 0 <= i < |steps| ==> Serial(ws[i], steps[i])
    ensures SafeSerial(ws[n]) && ws[0].record.log <= ws[n].record.log
  {
    hide Take, Enabled, SafeSerial, Serial;
    if n > 0 {
      SerialRunSafe(ws, steps, n - 1);
      assert Enabled(ws[n - 1], steps[n - 1]) && Serial(ws[n - 1], steps[n - 1]) && ws[n] == Take(ws[n - 1], steps[n - 1]);
      SerialKeeps(ws[n - 1], steps[n - 1]);
    }
  }

  // ---------------------------------------------------------------- saves that do

  /** It can happen: an edit that is saved while the loop rolls back is lost. It was reported
      saved under a number that then stands for another configuration. */
  lemma EditLost(w: World, config: Config) returns (ws: seq<World>, steps: seq<Step>)
    requires Safe(w) && w.phase.Running? && w.pending == map[] && w.slot.Some? && Counter(w.revs) + 1 < U64
    requires config != w.slot.value.config
    ensures Behaviour(ws, steps) && ws[0] == w && steps == [Fail(true), BeginEdit(config), Commit(Api), Commit(Loop)]
    ensures var last := ws[4];
            && Sound(last.revs) && last.edited == Some(Stored(Counter(w.revs) + 1, config))
            && last.revs.current == Some(Stored(Counter(w.revs) + 1, w.slot.value.config))
            && (forall k :: k in last.revs.history ==> last.revs.history[k] != last.edited.value)
            && !Increasing(last.record.log)
  {
    steps := [Fail(true), BeginEdit(config), Commit(Api), Commit(Loop)];
    var w1 := Take(w, steps[0]);
    var w2 := Take(w1, steps[1]);
    var w3 := Take(w2, steps[2]);
    OtherSafe(w, steps[0]);
    OtherSafe(w1, steps[1]);
    FreshCommit(w2, Api);
    StaleCommit(w3, Loop);
    CommitSoundIff(w3.revs, Counter(w.revs), w.slot.value.config);
    CommitOverwrites(w3.revs, Counter(w.revs), w.slot.value.config);
    ws := [w, w1, w2, w3, Take(w3, steps[3])];
  }

  /** It can happen: after two such edits the counter goes back behind the history. */
  lemma CounterGoesBack(w: World, first: Config, second: Config) returns (ws: seq<World>, steps: seq<Step>)
    requires Safe(w) && w.phase.Running? && w.pending == map[] && w.slot.Some? && Counter(w.revs) + 2 < U64
    ensures Behaviour(ws, steps) && ws[0] == w
    ensures steps == [Fail(true), BeginEdit(first), Commit(Api), BeginEdit(second), Commit(Api), Commit(Loop)]
    ensures Counter(ws[6].revs) == Counter(w.revs) + 1 < Counter(ws[5].revs) && !Sound(ws[6].revs)
  {
    steps := [Fail(true), BeginEdit(first), Commit(Api), BeginEdit(second), Commit(Api), Commit(Loop)];
    var w1 := Take(w, steps[0]);
    OtherSafe(w, steps[0]);
    EditSaved(w1, first);
    var w2 := Take(w1, steps[1]);
    var w3 := Take(w2, steps[2]);
    hide Safe, Sound;
    EditSaved(w3, second);
    var w4 := Take(w3, steps[3]);
    var w5 := Take(w4, steps[4]);
    assert Safe(w5) ==> Sound(w5.revs) by { SafeSound(w5); }
    CommitSoundIff(w5.revs, Counter(w.revs), w.slot.value.config);
    ws := [w, w1, w2, w3, w4, w5, Take(w5, steps[5])];
  }

  lemma SafeSound(w: World)
    ensures Safe(w) ==> Sound(w.revs)
  {
  }

  /** An edit saved without another write in between. */
  lemma EditSaved(w: World, config: Config)
    requires Safe(w) && Enabled(w, BeginEdit(config))
    ensures var mid := Take(w, BeginEdit(config));
            Enabled(mid, Commit(Api)) &&
            var after := Take(mid, Commit(Api));
            && Safe(after) && after.phase == w.phase && after.pending == w.pending
            && Counter(after.revs) == Counter(w.revs) + 1 && after.revs.current == after.edited == Some(Stored(Counter(w.revs) + 1, config))
  {
    OtherSafe(w, BeginEdit(config));
    FreshCommit(Take(w, BeginEdit(config)), Api);
  }

  // ---------------------------------------------------------------- rolling back

  /** A roll-back restores the newest proven configuration, under a number never used if
      nobody saved meanwhile. */
  lemma RollbackTarget(w: World)
    requires SafeSerial(w) && w.phase.Running? && w.pending == map[] && w.record.proven != {} && Counter(w.revs) + 1 < U64
    ensures var mid := Take(w, Fail(true));
            Enabled(mid, Commit(Loop)) &&
            var after := Take(mid, Commit(Loop));
            && Safe(after) && after.phase.Running? && after.revs.current == Some(after.phase.applied)
            && (forall i :: 0 <= i < |w.record.log| ==> w.record.log[i].revision < after.phase.applied.revision)
            && exists p :: p in w.record.proven && p.config == after.phase.applied.config && NewestOf(Some(p), w.record.proven)
  {
    var mid := Take(w, Fail(true));
    OtherSafe(w, Fail(true));
    FreshCommit(mid, Loop);
    assert NewestOf(Some(w.slot.value), w.record.proven);
  }

  /** A roll-back that fails before anything has been proven ends the loop. */
  lemma SecondFailureEnds(w: World, savable: bool)
    requires Safe(w) && Enabled(w, Fail(savable)) && w.record.failures > 0
    ensures Take(w, Fail(savable)).phase == Failed
  {
  }

  // ---------------------------------------------------------------- the loop

  /** What goes on while a revision is applied: an administrator saves a configuration, the
      one saved last is proven by a hot apply, or old revisions are pruned. */
  datatype Event = Edited(config: Config) | Proven | Pruned

  /** How applying a revision ends: `Broken` tells whether a roll-back could be saved. */
  datatype Outcome = Shutdown | Changed | Broken(savable: bool)

  datatype Round = Round(events: seq<Event>, outcome: Outcome)

  /** A run of the machine, every save of which ends before the next one starts. */
  datatype Trace = Trace(worlds: seq<World>, steps: seq<Step>)

  ghost predicate SerialRun(trace: Trace, first: World, last: World) {
    && Behaviour(trace.worlds, trace.steps)
    && (forall i :: 0 <= i < |trace.steps| ==> Serial(trace.worlds[i], trace.steps[i]))
    && trace.worlds[0] == first && trace.worlds[|trace.steps|] == last
  }

  lemma Extend(trace: Trace, first: World, last: World, step: Step) returns (longer: Trace)
    requires SerialRun(trace, first, last) && SafeSerial(last) && Enabled(last, step) && Serial(last, step)
    ensures SerialRun(longer, first, Take(last, step)) && SafeSerial(Take(last, step))
  {
    hide Enabled, Take, Serial, SafeSerial;
    SerialKeeps(last, step);
    longer := Trace(trace.worlds + [Take(last, step)], trace.steps + [step]);
    var n := |trace.steps|;
    forall i | 0 <= i < |longer.steps|
      ensures Enabled(longer.worlds[i], longer.steps[i]) && Serial(longer.worlds[i], longer.steps[i])
      ensures longer.worlds[i + 1] == Take(longer.worlds[i], longer.steps[i])
    {
      if i < n {
        assert longer.worlds[i] == trace.worlds[i] && longer.worlds[i + 1] == trace.worlds[i + 1] && longer.steps[i] == trace.steps[i];
      }
    }
  }

  class Runtime {
    var store: Revs
    var lastGood: Option<Stored>
    var phase: Phase
    /** The revision the last edit returned. */
    var edited: Option<Stored>
    ghost var record: Record

    ghost function View(): World
      reads this
    {
      World(store, lastGood, phase, map[], edited, record)
    }

    ghost predicate Valid()
      reads this
    {
      SafeSerial(View())
    }

    /** `store_last_good`: the slot that held the newest of the revisions proven so far does
        so with one more, and never goes back to an older one. */
    method StoreLastGood(s: Stored)
      modifies this`lastGood
      ensures forall proven :: NewestOf(old(lastGood), proven) ==> NewestOf(lastGood, proven + {s})
      ensures lastGood.Some? && lastGood.value.revision >= s.revision
      ensures old(lastGood).Some? ==> lastGood.value.revision >= old(lastGood).value.revision
      ensures lastGood == Keep(old(lastGood), s)
    {
      if lastGood.Some? && lastGood.value.revision >= s.revision {
        return;
      }
      lastGood := Some(s);
    }

    method TakeLastGood() returns (s: Option<Stored>)
      modifies this`lastGood
      ensures s == old(lastGood) && lastGood == None
    {
      s := lastGood;
      lastGood := None;
    }

    /** A save from its read to its write, nobody else saving. */
    method SaveConfig(config: Config) returns (s: Stored)
      modifies this`store, this`record
      ensures store == Committed(old(store), Counter(old(store)), config) && store.current == Some(s)
      ensures record == old(record).(log := old(record).log + [s])
    {
      store := Committed(store, Counter(store), config);
      s := store.current.value;
      record := record.(log := record.log + [s]);
    }

    /** One thing that happens while a revision runs. */
    method Happen(e: Event, ghost trace: Trace, ghost first: World) returns (ghost longer: Trace)
      requires Valid() && phase.Running? && SerialRun(trace, first, View())
      modifies this
      ensures Valid() && phase == old(phase) && SerialRun(longer, first, View())
    {
      hide SafeSerial, SerialRun;
      longer := trace;
      match e {
        case Edited(config) =>
          if Counter(store) + 1 < U64 {
            longer := Extend(longer, first, View(), BeginEdit(config));
            longer := Extend(longer, first, Take(View(), BeginEdit(config)), Commit(Api));
            var s := SaveConfig(config);
            edited := Some(s);
          }
        case Proven =>
          if edited.Some? {
            longer := Extend(longer, first, View(), HotApplied);
            StoreLastGood(edited.value);
            record := record.(proven := record.proven + {edited.value}, failures := 0);
          }
        case Pruned =>
          longer := Extend(longer, first, View(), Cleanup);
          store := store.(history := Retained(store.history));
      }
    }

    /** What `run` does when applying a revision has ended. */
    method Finish(o: Outcome, ghost trace: Trace, ghost first: World) returns (ghost longer: Trace)
      requires Valid() && phase.Running? && SerialRun(trace, first, View())
      modifies this
      ensures Valid() && SerialRun(longer, first, View())
    {
      hide SafeSerial, SerialRun;
      match o {
        case Shutdown =>
          longer := Extend(trace, first, View(), Stop);
          phase := Stopped;
        case Changed =>
          longer := Extend(trace, first, View(), Reload);
          StoreLastGood(phase.applied);
          record := record.(proven := record.proven + {phase.applied}, failures := 0);
          phase := if store.current.Some? then Running(store.current.value) else Failed;
        case Broken(savable) =>
          var good := savable && Counter(store) + 1 < U64;
          longer := Extend(trace, first, View(), Fail(good));
          ghost var mid := Take(View(), Fail(good));
          var previous := TakeLastGood();
          record := record.(proven := {}, failures := record.failures + 1);
          if previous.None? || !good {
            phase := Failed;
          } else {
            longer := Extend(longer, first, mid, Commit(Loop));
            var s := SaveConfig(previous.value.config);
            phase := Running(s);
          }
      }
    }

    /** `run`: every run of the loop, nobody saving beside it, is such a run of the machine,
        so all that holds there holds here. */
    method Run(rounds: seq<Round>) returns (ghost trace: Trace)
      requires Valid()
      modifies this
      ensures Valid() && SerialRun(trace, old(View()), View())
    {
      ghost var first := View();
      trace := Trace([first], []);
      var i := 0;
      while i < |rounds| && phase.Running?
        invariant Valid() && SerialRun(trace, first, View())
      {
        hide SafeSerial, SerialRun;
        var events := rounds[i].events;
        for j := 0 to |events|
          invariant Valid() && phase.Running? && SerialRun(trace, first, View())
        {
          trace := Happen(events[j], trace, first);
        }
        trace := Finish(rounds[i].outcome, trace, first);
        i := i + 1;
      }
    }
  }
}
