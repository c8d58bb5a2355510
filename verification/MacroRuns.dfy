/**
 Whole runs of the macro machine: what a recording holds, which prefixes can be armed at once, and why
 every expansion of a typed key ends.
 */
module MacroRuns {
  import opened Options
  import opened Octets
  import opened KeyCodec
  import opened MacroMachine

  /** The machine and the outer replays that `:normal`s set aside, innermost last. */
  datatype Machine = Machine(state: State, frames: seq<Suspended>)

  datatype Op =
    | Typed(key: Key, normal: bool, qCmd: bool)
    /** Take the next queued key and step on it. */
    | Drain(normal: bool, qCmd: bool)
    /** Step on a key of a `:normal`'s own text, which was neither typed nor queued. */
    | Payload(key: Key, normal: bool, qCmd: bool)
    | ReplayRegister(bytes: seq<Byte>)
    | ReplayOnLines(first: nat, last: nat, bytes: seq<Byte>)
    | NextLine
    | Flush
    | Interrupt
    | SuspendOuter
    | ResumeOuter

  /** The key event an operation makes the machine step on, if any. */
  function EventOf(s: State, op: Op): Option<Event> {
    match op
    case Typed(k, n, q) => Some(Event(k, false, n, q))
    case Drain(n, q) => if s.queue == [] then None else Some(Event(s.queue[0], true, n, q))
    case Payload(k, n, q) => Some(Event(k, true, n, q))
    case _ => None
  }

  function Apply(m: Machine, op: Op): Machine {
    var s := m.state;
    match op
    case Typed(k, n, q) => m.(state := StepGated(s, Event(k, false, n, q)).state)
    case Drain(n, q) =>
      if s.queue == [] then m
      else m.(state := StepGated(s.(queue := s.queue[1..]), Event(s.queue[0], true, n, q)).state)
    case Payload(k, n, q) => m.(state := StepGated(s, Event(k, true, n, q)).state)
    case ReplayRegister(b) => m.(state := Enqueued(s, b))
    case ReplayOnLines(a, b, bytes) => m.(state := s.(lineRun := Some(LineRun(a, b, bytes))))
    case NextLine => m.(state := NextLineRun(s).0)
    case Flush => m.(state := s.(queue := []))
    case Interrupt => m.(state := s.(queue := [], lineRun := None))
    case SuspendOuter => Machine(Suspend(s), m.frames + [SetAside(s)])
    case ResumeOuter =>
      if m.frames == [] then m
      else Machine(Resume(s, m.frames[|m.frames| - 1]), m.frames[..|m.frames| - 1])
  }

  function Run(m: Machine, ops: seq<Op>): Machine {
    if ops == [] then m else Apply(Run(m, ops[..|ops| - 1]), ops[|ops| - 1])
  }

  const START := Machine(INITIAL, [])

  /** Each operation of a run, done by the machine's own methods. */
  method Perform(m: MacroState, frames: seq<Suspended>, op: Op) returns (left: seq<Suspended>)
    modifies m
    ensures Machine(m.View(), left) == Apply(Machine(old(m.View()), frames), op)
  {
    left := frames;
    match op
    case Typed(k, n, q) =>
      var step := m.OnKey(Event(k, false, n, q));
    case Drain(n, q) =>
      var key := m.NextReplay();
      if key.Some? {
        var step := m.OnKey(Event(key.value, true, n, q));
      }
    case Payload(k, n, q) =>
      var step := m.OnKey(Event(k, true, n, q));
    case ReplayRegister(b) =>
      var full := m.ReplayBytes(b);
    case ReplayOnLines(a, b, bytes) =>
      m.ReplayLines(a, b, bytes);
    case NextLine =>
      var line := m.NextLine();
    case Flush =>
      m.FlushReplay();
    case Interrupt =>
      m.InterruptReplay();
    case SuspendOuter =>
      var saved := m.SuspendReplay();
      assert saved.queue + [] == saved.queue;
      assert saved == SetAside(old(m.View()));
      left := left + [saved];
    case ResumeOuter =>
      if frames != [] {
        m.ResumeReplay(frames[|frames| - 1]);
        left := frames[..|frames| - 1];
      }
  }

  // ----- Prefixes and recordings exclude one another

  predicate Exclusive(s: State) {
    !(s.pendingQ && s.pendingAt) && !(s.pendingQ && s.recording.Some?)
  }

  lemma {:induction false} StepKeepsExclusive(s: State, e: Event)
    requires Exclusive(s)
    ensures Exclusive(StepGated(s, e).state)
  {
  }

  lemma {:induction false} RunKeepsExclusive(ops: seq<Op>)
    ensures Exclusive(Run(START, ops).state)
  {
    if ops != [] {
      var m, op := Run(START, ops[..|ops| - 1]), ops[|ops| - 1];
      RunKeepsExclusive(ops[..|ops| - 1]);
      if EventOf(m.state, op).Some? {
        var s := if op.Drain? then m.state.(queue := m.state.queue[1..]) else m.state;
        StepKeepsExclusive(s, EventOf(m.state, op).value);
      }
    }
  }

  // ----- What a recording holds

  /** The keys typed in a stretch of a run, in order; replayed keys are not among them. */
  function TypedKeys(ops: seq<Op>): seq<Key> {
    if ops == [] then []
    else TypedKeys(ops[..|ops| - 1])
         + if ops[|ops| - 1].Typed? then [ops[|ops| - 1].key] else []
  }

  /** Operation `i` of the run is the key that names register `reg` after `q`. */
  ghost predicate StartsAt(ops: seq<Op>, i: nat, reg: Scalar) {
    && i < |ops|
    && var s := Run(START, ops[..i]).state;
       && s.pendingQ && s.recording.None?
       && var e := EventOf(s, ops[i]);
          e.Some? && NamesRegister(e.value.key) && e.value.key.code == Char(reg)
  }

  /** A recording into `reg` is live after every operation from `i` on. */
  ghost predicate LiveFrom(ops: seq<Op>, i: nat, reg: Scalar) {
    forall n :: i < n <= |ops| ==>
      Run(START, ops[..n]).state.recording.Some? && Run(START, ops[..n]).state.recording.value.reg == reg
  }

  ghost predicate HoldsSince(ops: seq<Op>, i: nat, r: Recording) {
    StartsAt(ops, i, r.reg) && LiveFrom(ops, i, r.reg) && r.keys == TypedKeys(ops[i + 1..])
  }

  /** How one step changes the recording when it does not stop it. */
  lemma {:induction false} StepOnRecording(s: State, e: Event)
    requires Exclusive(s) && !Stops(s, e)
    ensures var s' := StepGated(s, e).state;
            if s.recording.Some? then
              s'.recording == Some(s.recording.value.(keys := s.recording.value.keys
                                                              + if e.fromReplay then [] else [e.key]))
            else if s.pendingQ && NamesRegister(e.key) then
              s'.recording == Some(Recording(e.key.code.c, []))
            else s'.recording == None
  {
    if s.recording.Some? {
      assert s.recording.value.keys + [] == s.recording.value.keys;
    }
  }

  lemma {:induction false} OpOnRecording(m: Machine, op: Op)
    requires Exclusive(m.state)
    ensures var r, e := Apply(m, op).state.recording, EventOf(m.state, op);
            if m.state.recording.Some? then
              || r == None
              || r == Some(m.state.recording.value.(keys := m.state.recording.value.keys
                                                            + if op.Typed? then [op.key] else []))
            else
              || r == None
              || (m.state.pendingQ && e.Some? && NamesRegister(e.value.key)
                  && r == Some(Recording(e.value.key.code.c, [])))
  {
    if EventOf(m.state, op).Some? {
      var s := if op.Drain? then m.state.(queue := m.state.queue[1..]) else m.state;
      if !Stops(s, EventOf(m.state, op).value) {
        StepOnRecording(s, EventOf(m.state, op).value);
        assert s.recording.None? || s.recording.value.keys + [] == s.recording.value.keys;
      }
    } else if m.state.recording.Some? {
      assert m.state.recording.value.keys + [] == m.state.recording.value.keys;
    }
  }

  lemma {:induction false} StartsStill(ops: seq<Op>, op: Op, i: nat, reg: Scalar)
    requires StartsAt(ops, i, reg)
    ensures StartsAt(ops + [op], i, reg)
  {
    assert (ops + [op])[..i] == ops[..i] && (ops + [op])[i] == ops[i];
  }

  lemma {:induction false} LiveStill(ops: seq<Op>, op: Op, i: nat, r: Recording)
    requires LiveFrom(ops, i, r.reg) && Run(START, ops + [op]).state.recording == Some(r)
    ensures LiveFrom(ops + [op], i, r.reg)
  {
    var all := ops + [op];
    forall n | i < n <= |all|
      ensures Run(START, all[..n]).state.recording.Some?
      ensures Run(START, all[..n]).state.recording.value.reg == r.reg
    {
      if n <= |ops| {
        assert all[..n] == ops[..n];
      } else {
        assert all[..n] == all;
      }
    }
  }

  lemma {:induction false} TypedMore(ops: seq<Op>, op: Op)
    ensures TypedKeys(ops + [op]) == TypedKeys(ops) + if op.Typed? then [op.key] else []
  {
    assert (ops + [op])[..|ops|] == ops;
  }

  lemma {:induction false} StillLive(ops: seq<Op>, op: Op, i: nat, r: Recording, r': Recording)
    requires HoldsSince(ops, i, r) && Run(START, ops + [op]).state.recording == Some(r')
    requires r' == r.(keys := r.keys + if op.Typed? then [op.key] else [])
    ensures HoldsSince(ops + [op], i, r')
  {
    StartsStill(ops, op, i, r.reg);
    LiveStill(ops, op, i, r');
    assert (ops + [op])[i + 1..] == ops[i + 1..] + [op];
    TypedMore(ops[i + 1..], op);
  }

  lemma {:induction false} JustStarted(ops: seq<Op>, op: Op, r: Recording)
    requires Run(START, ops).state.recording.None? && Run(START, ops).state.pendingQ
    requires EventOf(Run(START, ops).state, op).Some?
    requires NamesRegister(EventOf(Run(START, ops).state, op).value.key)
    requires r == Recording(EventOf(Run(START, ops).state, op).value.key.code.c, [])
    requires Run(START, ops + [op]).state.recording == Some(r)
    ensures HoldsSince(ops + [op], |ops|, r)
  {
    StartsHere(ops, op, r.reg);
    LiveNow(ops, op, r.reg);
    assert (ops + [op])[|ops| + 1..] == [];
  }

  lemma {:induction false} StartsHere(ops: seq<Op>, op: Op, reg: Scalar)
    requires Run(START, ops).state.recording.None? && Run(START, ops).state.pendingQ
    requires var e := EventOf(Run(START, ops).state, op);
             e.Some? && NamesRegister(e.value.key) && e.value.key.code.c == reg
    ensures StartsAt(ops + [op], |ops|, reg)
  {
    assert (ops + [op])[..|ops|] == ops && (ops + [op])[|ops|] == op;
  }

  lemma {:induction false} LiveNow(ops: seq<Op>, op: Op, reg: Scalar)
    requires var r := Run(START, ops + [op]).state.recording; r.Some? && r.value.reg == reg
    ensures LiveFrom(ops + [op], |ops|, reg)
  {
    assert (ops + [op])[..|ops| + 1] == ops + [op];
  }

  lemma {:induction false} RunAppend(ops: seq<Op>, op: Op)
    ensures Run(START, ops + [op]) == Apply(Run(START, ops), op)
  {
    assert (ops + [op])[..|ops|] == ops;
  }

  /** A live recording holds exactly the keys typed since its register was named. */
  lemma {:induction false} RecordingHoldsTyped(ops: seq<Op>)
    requires Run(START, ops).state.recording.Some?
    ensures exists i: nat :: HoldsSince(ops, i, Run(START, ops).state.recording.value)
  {
    if ops != [] {
      var init, op := ops[..|ops| - 1], ops[|ops| - 1];
      var m, r' := Run(START, init), Run(START, ops).state.recording.value;
      assert ops == init + [op];
      RunAppend(init, op);
      RunKeepsExclusive(init);
      OpOnRecording(m, op);
      if m.state.recording.Some? {
        RecordingHoldsTyped(init);
        var i: nat :| HoldsSince(init, i, m.state.recording.value);
        StillLive(init, op, i, m.state.recording.value, r');
        assert HoldsSince(ops, i, r');
      } else {
        JustStarted(init, op, r');
        assert HoldsSince(ops, |init|, r');
      }
    }
  }

  /** The stopping `q` hands out the encoding of exactly the keys typed since the register was named,
      with the recording live all along; replaying those bytes gives back their normal forms. */
  lemma {:induction false} StoreHoldsTypedKeys(ops: seq<Op>, key: Key, normal: bool, qCmd: bool)
    requires StepGated(Run(START, ops).state, Event(key, false, normal, qCmd)).step.Store?
    ensures var st := StepGated(Run(START, ops).state, Event(key, false, normal, qCmd)).step;
            IsBare(key, Q) && qCmd
            && exists i: nat :: StartsAt(ops, i, st.reg) && LiveFrom(ops, i, st.reg)
                 && st.bytes == EncodeAll(TypedKeys(ops[i + 1..]))
                 && Decode(st.bytes) == NormalForms(TypedKeys(ops[i + 1..]))
  {
    var s := Run(START, ops).state;
    RecordingHoldsTyped(ops);
    var i: nat :| HoldsSince(ops, i, s.recording.value);
    ReplayOfRecorded(s, TypedKeys(ops[i + 1..]));
  }

  // ----- Which register `@`, `@@` and `Q` run

  /** The step an operation leads to, if it feeds the machine a key. */
  function StepOf(s: State, op: Op): Option<Step> {
    match EventOf(s, op)
    case None => None
    case Some(e) => Some(StepGated(if op.Drain? then s.(queue := s.queue[1..]) else s, e).step)
  }

  /** The register last replayed once a step is taken, `:` for an Ex line. */
  function PlayedAfter(before: Option<Scalar>, step: Option<Step>): Option<Scalar> {
    match step
    case Some(Replay(c)) => Some(c)
    case Some(RepeatEx) => Some(':' as int)
    case _ => before
  }

  /** The register last stored into, in lower case. */
  function StoredAfter(before: Option<Scalar>, step: Option<Step>): Option<Scalar> {
    match step
    case Some(Store(reg, _)) => Some(if 'A' as int <= reg <= 'Z' as int then reg + 32 else reg)
    case _ => before
  }

  /** The register of the last replay of a run. */
  function LastPlayed(ops: seq<Op>): Option<Scalar> {
    if ops == [] then None
    else
      var init := ops[..|ops| - 1];
      PlayedAfter(LastPlayed(init), StepOf(Run(START, init).state, ops[|ops| - 1]))
  }

  /** The register of the last recording stored in a run. */
  function LastStored(ops: seq<Op>): Option<Scalar> {
    if ops == [] then None
    else
      var init := ops[..|ops| - 1];
      StoredAfter(LastStored(init), StepOf(Run(START, init).state, ops[|ops| - 1]))
  }

  lemma {:induction false} StepRemembers(s: State, e: Event)
    ensures var r := StepGated(s, e);
            && r.state.lastPlayed == PlayedAfter(s.lastPlayed, Some(r.step))
            && r.state.lastRecorded == StoredAfter(s.lastRecorded, Some(r.step))
  {
  }

  lemma {:induction false} OpRemembers(m: Machine, op: Op)
    ensures Apply(m, op).state.lastPlayed == PlayedAfter(m.state.lastPlayed, StepOf(m.state, op))
    ensures Apply(m, op).state.lastRecorded == StoredAfter(m.state.lastRecorded, StepOf(m.state, op))
  {
    if EventOf(m.state, op).Some? {
      var s := if op.Drain? then m.state.(queue := m.state.queue[1..]) else m.state;
      StepRemembers(s, EventOf(m.state, op).value);
    }
  }

  /** In every run the machine remembers the register last replayed and the one last recorded. */
  lemma {:induction false} RunRemembers(ops: seq<Op>)
    ensures Run(START, ops).state.lastPlayed == LastPlayed(ops)
    ensures Run(START, ops).state.lastRecorded == LastStored(ops)
  {
    if ops != [] {
      RunRemembers(ops[..|ops| - 1]);
      OpRemembers(Run(START, ops[..|ops| - 1]), ops[|ops| - 1]);
    }
  }

  /** The step that the next key leads to after a run. */
  function NextStep(ops: seq<Op>, e: Event): Stepped {
    StepGated(Run(START, ops).state, e)
  }

  predicate IsNameChar(c: Scalar) {
    || 'a' as int <= c <= 'z' as int || 'A' as int <= c <= 'Z' as int
    || '0' as int <= c <= '9' as int || c == '\"' as int
  }

  /** With `@` armed the next key names the register: a letter of either case, a digit or `"` its own, `:` the
      last Ex line, `@` whatever was last replayed in the run; any other key, and any chord, none. */
  lemma {:induction false} AtRunsNamed(ops: seq<Op>, e: Event)
    requires Run(START, ops).state.pendingAt
    ensures var r, c := NextStep(ops, e), if e.key.code.Char? then e.key.code.c else 0;
            && !r.state.pendingAt && r.state.recording.Some? == Run(START, ops).state.recording.Some?
            && if !e.key.code.Char? || IsChord(e.key) then r.step == Consumed
               else if 'A' as int <= c <= 'Z' as int then r.step == Replay(c + 32)
               else if IsNameChar(c) then r.step == Replay(c)
               else if c == ':' as int then r.step == RepeatEx
               else if c != '@' as int then r.step == Consumed
               else match LastPlayed(ops)
                    case None => r.step == NoPreviousRegister
                    case Some(p) => r.step == if p == ':' as int then RepeatEx else Replay(p)
  {
    RunRemembers(ops);
    RunKeepsExclusive(ops);
  }

  /** With `q` armed the next key names the register to record into, or the ring whose command-line window
      opens; any other key, and any chord, neither. */
  lemma {:induction false} QNames(ops: seq<Op>, e: Event)
    requires Run(START, ops).state.pendingQ
    ensures var r, c := NextStep(ops, e), if e.key.code.Char? then e.key.code.c else 0;
            && !r.state.pendingQ
            && if !e.key.code.Char? || IsChord(e.key) then r.step == Consumed && r.state.recording == None
               else if IsNameChar(c) then r.step == Consumed && r.state.recording == Some(Recording(c, []))
               else && r.state.recording == None
                    && r.step == if c == ':' as int || c == '/' as int || c == '?' as int then OpenCmdWin(c)
                                 else Consumed
  {
    RunKeepsExclusive(ops);
  }

  predicate Quiet(s: State) {
    !s.pendingQ && !s.pendingAt
  }

  /** With nothing armed, where commands start: `q` arms or, typed while recording, stores into the register
      being recorded; `@` arms; `Q` replays what was last recorded in the run, if anything. Every other key,
      and all of them elsewhere, goes on to the editor as it is. */
  lemma {:induction false} QuietKeys(ops: seq<Op>, e: Event)
    requires Quiet(Run(START, ops).state)
    ensures var r, s := NextStep(ops, e), Run(START, ops).state;
            if e.qCmd && IsBare(e.key, 'q' as int) && (s.recording.None? || !e.fromReplay) then
              if s.recording.None? then r.step == Consumed && r.state.pendingQ && !r.state.pendingAt
              else r.step.Store? && r.step.reg == s.recording.value.reg && r.state.recording == None && Quiet(r.state)
            else if e.normal && IsBare(e.key, '@' as int) then
              r.step == Consumed && r.state.pendingAt && !r.state.pendingQ
            else && Quiet(r.state)
                 && r.step == if e.normal && IsBare(e.key, 'Q' as int) then
                                (match LastStored(ops) case None => Consumed case Some(c) => Replay(c))
                              else Dispatch(e.key)
  {
    RunRemembers(ops);
  }

  // ----- Every expansion ends

  function SetAsideKeys(frames: seq<Suspended>): nat {
    if frames == [] then 0
    else SetAsideKeys(frames[..|frames| - 1]) + |frames[|frames| - 1].queue|
  }

  /** The keys that can still run: queued, set aside, and what the budget still allows. */
  function Fuel(m: Machine): nat {
    |m.state.queue| + SetAsideKeys(m.frames) + m.state.budget
  }

  predicate Drains(m: Machine, op: Op) {
    op.Drain? && m.state.queue != []
  }

  lemma {:induction false} ReplayedStepKeepsQueue(s: State, e: Event)
    requires e.fromReplay
    ensures var s' := StepGated(s, e).state; s'.queue == s.queue && s'.budget == s.budget && s'.lineRun == s.lineRun
  {
  }

  /** Queueing a register or a line's keys moves budget into the queue one for one; a drained key spends
      it, and a key of a `:normal`'s text does not. */
  lemma {:induction false} FuelStep(m: Machine, op: Op)
    requires !op.Typed?
    ensures Fuel(Apply(m, op)) <= Fuel(m) - if Drains(m, op) then 1 else 0
    ensures !op.Drain? && !op.Flush? && !op.Interrupt? ==> Fuel(Apply(m, op)) == Fuel(m)
  {
    match op
    case Drain(n, q) =>
      if m.state.queue != [] {
        ReplayedStepKeepsQueue(m.state.(queue := m.state.queue[1..]), Event(m.state.queue[0], true, n, q));
      }
    case Payload(k, n, q) =>
      ReplayedStepKeepsQueue(m.state, Event(k, true, n, q));
    case SuspendOuter =>
      assert (m.frames + [SetAside(m.state)])[..|m.frames|] == m.frames;
    case _ =>
  }

  function DrainCount(m: Machine, ops: seq<Op>): nat {
    if ops == [] then 0
    else
      var init := ops[..|ops| - 1];
      DrainCount(m, init) + if Drains(Run(m, init), ops[|ops| - 1]) then 1 else 0
  }

  lemma {:induction false} DrainsWithinFuel(m: Machine, ops: seq<Op>)
    requires forall i :: 0 <= i < |ops| ==> !ops[i].Typed?
    ensures DrainCount(m, ops) + Fuel(Run(m, ops)) <= Fuel(m)
  {
    if ops != [] {
      DrainsWithinFuel(m, ops[..|ops| - 1]);
      FuelStep(Run(m, ops[..|ops| - 1]), ops[|ops| - 1]);
    }
  }

  /** The keys the machine steps on in a run. */
  function KeysRun(m: Machine, ops: seq<Op>): nat {
    if ops == [] then 0
    else
      var init := ops[..|ops| - 1];
      KeysRun(m, init) + if EventOf(Run(m, init).state, ops[|ops| - 1]).Some? then 1 else 0
  }

  function PayloadCount(ops: seq<Op>): nat {
    if ops == [] then 0
    else PayloadCount(ops[..|ops| - 1]) + if ops[|ops| - 1].Payload? then 1 else 0
  }

  lemma {:induction false} KeysRunAreDrainedOrPayload(m: Machine, ops: seq<Op>)
    requires forall i :: 0 <= i < |ops| ==> !ops[i].Typed?
    ensures KeysRun(m, ops) == DrainCount(m, ops) + PayloadCount(ops)
  {
    if ops != [] {
      KeysRunAreDrainedOrPayload(m, ops[..|ops| - 1]);
    }
  }

  /** After a typed key, whatever its replays do (registers that replay themselves, counts, line runs,
      nested `:normal`s), the keys drained are no more than were queued plus the cap, and the only other
      keys run are those written out in `:normal`s. */
  lemma {:induction false} ExpansionIsBounded(m: Machine, key: Key, normal: bool, qCmd: bool, ops: seq<Op>)
    requires forall i :: 0 <= i < |ops| ==> !ops[i].Typed?
    ensures var after := Apply(m, Typed(key, normal, qCmd));
            var bound := |m.state.queue| + SetAsideKeys(m.frames) + MACRO_KEY_CAP;
            DrainCount(after, ops) <= bound && KeysRun(after, ops) <= bound + PayloadCount(ops)
  {
    DrainsWithinFuel(Apply(m, Typed(key, normal, qCmd)), ops);
    KeysRunAreDrainedOrPayload(Apply(m, Typed(key, normal, qCmd)), ops);
  }

  /** The keys of `:normal`s are outside the cap: any number of them run without spending anything. */
  lemma {:induction false} PayloadIsUncharged(m: Machine, key: Key, n: nat)
    ensures var ops := seq(n, _ => Payload(key, false, false));
            KeysRun(m, ops) == n && Fuel(Run(m, ops)) == Fuel(m)
    decreases n
  {
    var ops := seq(n, _ => Payload(key, false, false));
    if n > 0 {
      assert ops[..n - 1] == seq(n - 1, _ => Payload(key, false, false));
      PayloadIsUncharged(m, key, n - 1);
      FuelStep(Run(m, ops[..n - 1]), ops[n - 1]);
    }
  }

  // ----- The bound is reached

  predicate Untyped(ops: seq<Op>) {
    forall i :: 0 <= i < |ops| ==> !ops[i].Typed?
  }

  lemma {:induction false} RunCons(m: Machine, op: Op, ops: seq<Op>)
    ensures Run(m, [op] + ops) == Run(Apply(m, op), ops)
    ensures KeysRun(m, [op] + ops) == KeysRun(Apply(m, op), ops) + if EventOf(m.state, op).Some? then 1 else 0
    ensures PayloadCount([op] + ops) == PayloadCount(ops) + if op.Payload? then 1 else 0
    decreases |ops|
  {
    var all := [op] + ops;
    if ops == [] {
      assert all[..0] == [] && all == [op];
    } else {
      var n := |ops| - 1;
      RunCons(m, op, ops[..n]);
      assert all[..|all| - 1] == [op] + ops[..n] && all[|all| - 1] == ops[n];
    }
  }

  /** A run of replays alone in which as many keys run as there is fuel. */
  ghost predicate Spends(m: Machine, ops: seq<Op>) {
    Untyped(ops) && PayloadCount(ops) == 0 && KeysRun(m, ops) == Fuel(m)
  }

  lemma {:induction false} SpendsFirst(m: Machine, op: Op, ops: seq<Op>)
    requires !op.Typed? && !op.Payload? && Spends(Apply(m, op), ops)
    requires Fuel(m) == Fuel(Apply(m, op)) + if EventOf(m.state, op).Some? then 1 else 0
    ensures Spends(m, [op] + ops)
  {
    RunCons(m, op, ops);
  }

  lemma {:induction false} OneKeyRegister()
    ensures Decode([97]) == [Plain(Char(97))]
  {
    DecodeFirst(Plain(Char(97)), []);
    assert Encode(Plain(Char(97))) == Some([97]) && [97] + [] == [97];
    assert Decode([]) == [];
  }

  lemma {:induction false} OneKeyQueued(m: Machine)
    requires m.state.queue == [] && m.state.budget > 0
    ensures var r := Apply(m, ReplayRegister([97]));
            && r.frames == m.frames && |r.state.queue| == 1 && r.state.budget == m.state.budget - 1
            && Fuel(r) == Fuel(m)
  {
    OneKeyRegister();
  }

  lemma {:induction false} DrainSpendsOne(m: Machine)
    requires m.state.queue != []
    ensures Fuel(m) == Fuel(Apply(m, Drain(false, false))) + 1
  {
    ReplayedStepKeepsQueue(m.state.(queue := m.state.queue[1..]), Event(m.state.queue[0], true, false, false));
  }

  /** From any machine, some run of replays alone spends every key queued, set aside or left in the budget. */
  lemma {:induction false} FuelCanBeSpent(m: Machine) returns (ops: seq<Op>)
    ensures Spends(m, ops)
    decreases Fuel(m), |m.frames|, m.state.budget
  {
    if m.state.queue != [] {
      DrainSpendsOne(m);
      var rest := FuelCanBeSpent(Apply(m, Drain(false, false)));
      SpendsFirst(m, Drain(false, false), rest);
      ops := [Drain(false, false)] + rest;
    } else if m.state.budget > 0 {
      OneKeyQueued(m);
      var rest := FuelCanBeSpent(Apply(m, ReplayRegister([97])));
      SpendsFirst(m, ReplayRegister([97]), rest);
      ops := [ReplayRegister([97])] + rest;
    } else if m.frames != [] {
      FuelStep(m, ResumeOuter);
      var rest := FuelCanBeSpent(Apply(m, ResumeOuter));
      SpendsFirst(m, ResumeOuter, rest);
      ops := [ResumeOuter] + rest;
    } else {
      ops := [];
    }
  }

  lemma {:induction false} TypedKeyRefuels(m: Machine, key: Key, normal: bool, qCmd: bool)
    ensures Fuel(Apply(m, Typed(key, normal, qCmd)))
         == |m.state.queue| + SetAsideKeys(m.frames) + MACRO_KEY_CAP
  {
  }

  /** No run that writes out at most `p` keys in `:normal`s runs more keys than `bound`. */
  ghost predicate CapHolds(m: Machine, p: nat, bound: nat) {
    forall ops :: Untyped(ops) && PayloadCount(ops) <= p ==> KeysRun(m, ops) <= bound
  }

  lemma {:induction false} OnePayloadMore(m: Machine, ops: seq<Op>, key: Key)
    requires Spends(m, ops)
    ensures var more := ops + [Payload(key, false, false)];
            Untyped(more) && PayloadCount(more) == 1 && KeysRun(m, more) == Fuel(m) + 1
  {
    assert (ops + [Payload(key, false, false)])[..|ops|] == ops;
  }

  /** What one typed key expands to is within the keys queued and the cap exactly when no key is written
      out in a `:normal`: all the fuel can be spent, and any such key comes on top of it. */
  lemma {:induction false} CapHoldsIffNoPayload(m: Machine, key: Key, normal: bool, qCmd: bool, p: nat)
    ensures var after := Apply(m, Typed(key, normal, qCmd));
            CapHolds(after, p, |m.state.queue| + SetAsideKeys(m.frames) + MACRO_KEY_CAP) <==> p == 0
  {
    var after := Apply(m, Typed(key, normal, qCmd));
    TypedKeyRefuels(m, key, normal, qCmd);
    if p == 0 {
      forall ops | Untyped(ops) && PayloadCount(ops) <= p
        ensures KeysRun(after, ops) <= Fuel(after)
      {
        DrainsWithinFuel(after, ops);
        KeysRunAreDrainedOrPayload(after, ops);
      }
    } else {
      var ops := FuelCanBeSpent(after);
      OnePayloadMore(after, ops, key);
      assert KeysRun(after, ops + [Payload(key, false, false)]) > Fuel(after);
    }
  }

  // ----- ... line runs included

  function LinesLeft(run: Option<LineRun>): nat {
    match run
    case None => 0
    case Some(r) => if r.next <= r.last then 2 + r.last - r.next else 1
  }

  function SetAsideLines(frames: seq<Suspended>): nat {
    if frames == [] then 0
    else SetAsideLines(frames[..|frames| - 1]) + LinesLeft(frames[|frames| - 1].lineRun)
  }

  function Lines(m: Machine): nat {
    LinesLeft(m.state.lineRun) + SetAsideLines(m.frames)
  }

  /** Starting the next line keeps the fuel and leaves fewer lines, so (fuel, lines) always drops. */
  lemma {:induction false} NextLineDrops(m: Machine)
    requires m.state.queue == [] && m.state.lineRun.Some?
    ensures var m' := Apply(m, NextLine); Fuel(m') == Fuel(m) && Lines(m') < Lines(m)
  {
    FuelStep(m, NextLine);
  }

  // ----- One key of a `:normal`

  /** What the rest of the session does in one turn of the loop: whether it is quitting or CTRL-C came, the
      gates for the key, the operations the key leads to (nested `:normal`s with their own drains among
      them) and whether it failed. */
  datatype Turn = Turn(quit: bool, interrupted: bool, normal: bool, qCmd: bool, answer: seq<Op>, failed: bool)

  datatype Ending = Dry | Failed | Quit

  /** A key is taken and what it leads to is done. */
  function Answered(m: Machine, op: Op, answer: seq<Op>): Machine {
    Run(Apply(m, op), answer)
  }

  function DrainedBy(m: Machine, op: Op, answer: seq<Op>): nat {
    (if Drains(m, op) then 1 else 0) + DrainCount(Apply(m, op), answer)
  }

  lemma {:induction false} AnswerWithinFuel(m: Machine, op: Op, answer: seq<Op>)
    requires !op.Typed? && forall i :: 0 <= i < |answer| ==> !answer[i].Typed?
    ensures DrainedBy(m, op, answer) + Fuel(Answered(m, op, answer)) <= Fuel(m)
  {
    FuelStep(m, op);
    DrainsWithinFuel(Apply(m, op), answer);
  }

  lemma {:induction false} LineWithinFuel(m: Machine)
    ensures var r := Apply(m, NextLine);
            && Fuel(r) == Fuel(m)
            && (r.state.queue == [] && r.state.lineRun.Some? ==> NamesNothing(r.state.lineRun.value.bytes))
  {
    FuelStep(m, NextLine);
    DryAfterLine(m.state);
  }

  lemma {:induction false} FlushWithinFuel(m: Machine)
    ensures Fuel(Apply(m, Flush)) <= Fuel(m) && Apply(m, Flush).state.queue == []
  {
  }

  /** A key of a `:normal`, then the replay it started: a line is begun, and the loop ends as soon as no key
      is queued. It always ends, whatever the keys lead to, with an empty queue unless the session quits; a
      linewise run is still on after a dry end only if its register names no key and swallows its `<Esc>`. */
  method NestedKey(m: Machine, key: Key, world: nat -> Turn) returns (r: Machine, drained: nat, ending: Ending)
    requires forall n, i :: 0 <= i < |world(n).answer| ==> !world(n).answer[i].Typed?
    ensures drained + Fuel(r) <= Fuel(m)
    ensures ending != Quit ==> r.state.queue == []
    ensures ending == Dry && r.state.lineRun.Some? ==> NamesNothing(r.state.lineRun.value.bytes)
  {
    if world(0).interrupted {
      FlushWithinFuel(m);
      return Apply(m, Flush), 0, Failed;
    }
    var first := Payload(key, world(0).normal, world(0).qCmd);
    AnswerWithinFuel(m, first, world(0).answer);
    r, drained := Answered(m, first, world(0).answer), DrainedBy(m, first, world(0).answer);
    if world(0).failed {
      FlushWithinFuel(r);
      return Apply(r, Flush), drained, Failed;
    }
    var n := 1;
    while !world(n).quit
      invariant drained + Fuel(r) <= Fuel(m)
      decreases Fuel(r)
    {
      var turn := world(n);
      LineWithinFuel(r);
      r := Apply(r, NextLine);
      if turn.interrupted {
        FlushWithinFuel(r);
        return Apply(r, Flush), drained, Failed;
      }
      if r.state.queue == [] {
        return r, drained, Dry;
      }
      var next := Drain(turn.normal, turn.qCmd);
      AnswerWithinFuel(r, next, turn.answer);
      r, drained := Answered(r, next, turn.answer), drained + DrainedBy(r, next, turn.answer);
      if turn.failed {
        FlushWithinFuel(r);
        return Apply(r, Flush), drained, Failed;
      }
      n := n + 1;
    }
    ending := Quit;
  }

  // ----- A line run that outlives its `:normal`

  predicate SameReplay(a: Machine, b: Machine) {
    && a.frames == b.frames && a.state.queue == b.state.queue
    && a.state.budget == b.state.budget && a.state.lineRun == b.state.lineRun
  }

  lemma {:induction false} PayloadKeepsReplay(m: Machine, key: Key, normal: bool, qCmd: bool)
    ensures SameReplay(m, Apply(m, Payload(key, normal, qCmd)))
  {
    ReplayedStepKeepsQueue(m.state, Event(key, true, normal, qCmd));
  }

  lemma {:induction false} ResumeKeepsLeftover(m: Machine, outer: State, frames: seq<Suspended>)
    requires m.frames == frames + [SetAside(outer)] && m.state.queue == [] && outer.lineRun.None?
    ensures var r := Apply(m, ResumeOuter);
            r.frames == frames && r.state.queue == outer.queue && r.state.lineRun == m.state.lineRun
  {
    assert m.frames[..|frames|] == frames;
  }

  /** The `:normal`'s key has queued the `<Esc>` that leaves Visual mode and started a linewise run. */
  function LinesStarted(m: Machine, key: Key, run: LineRun): Machine {
    Apply(Apply(Apply(Apply(m, SuspendOuter), Payload(key, true, true)), ReplayRegister(ESC)),
          ReplayOnLines(run.next, run.last, run.bytes))
  }

  lemma {:induction false} EscQueued(m: Machine, run: LineRun)
    requires m.state.queue == []
    ensures var on := Apply(Apply(m, ReplayRegister(ESC)), ReplayOnLines(run.next, run.last, run.bytes));
            && on.frames == m.frames && on.state.lineRun == Some(run)
            && on.state.queue == if m.state.budget == 0 then [] else [Plain(Esc)]
  {
    EscAlone();
  }

  lemma {:induction false} StartedRun(m: Machine, key: Key, run: LineRun)
    ensures var on := LinesStarted(m, key, run);
            && on.frames == m.frames + [SetAside(m.state)] && on.state.lineRun == Some(run)
            && on.state.queue == if m.state.budget == 0 then [] else [Plain(Esc)]
  {
    PayloadKeepsReplay(Apply(m, SuspendOuter), key, true, true);
    EscQueued(Apply(Apply(m, SuspendOuter), Payload(key, true, true)), run);
  }

  lemma {:induction false} DrainsLast(m: Machine, normal: bool, qCmd: bool)
    requires |m.state.queue| <= 1
    ensures var r := Apply(m, Drain(normal, qCmd));
            r.frames == m.frames && r.state.queue == [] && r.state.lineRun == m.state.lineRun
  {
    if m.state.queue != [] {
      ReplayedStepKeepsQueue(m.state.(queue := m.state.queue[1..]), Event(m.state.queue[0], true, normal, qCmd));
    }
  }

  /** `r` is `m` with the next line of its run begun and no key queued for it. */
  predicate Stalled(m: Machine, r: Machine, run: LineRun) {
    r.frames == m.frames && r.state.queue == [] && r.state.lineRun == Some(run.(next := run.next + 1))
  }

  lemma {:induction false} LineStalls(m: Machine, run: LineRun)
    requires LineDue(m.state) && m.state.lineRun == Some(run) && NamesNothing(run.bytes)
    ensures Stalled(m, Apply(m, NextLine), run)
  {
    LineStallsIffNoKeys(m.state);
    StalledBy(m, NextLineRun(m.state).0, run);
  }

  lemma {:induction false} StalledBy(m: Machine, s: State, run: LineRun)
    requires m.state.queue == [] && s == OneLineOn(m.state, run)
    ensures Stalled(m, m.(state := s), run)
  {
  }

  /** A `:normal` whose key starts a linewise run of a register that names no key begins one line for that
      key and one for its closing `<Esc>`, and hands the rest of the run to an outer replay that had none. */
  lemma {:induction false} LineRunLeaks(m: Machine, key: Key, run: LineRun)
    requires m.state.lineRun.None? && run.next < run.last && NamesNothing(run.bytes)
    ensures var begun := Apply(Apply(LinesStarted(m, key, run), Drain(true, true)), NextLine);
            var closed := Apply(Apply(begun, Payload(Plain(Esc), true, true)), NextLine);
            var r := Apply(closed, ResumeOuter);
            && r.frames == m.frames && r.state.queue == m.state.queue
            && r.state.lineRun == Some(run.(next := run.next + 2))
  {
    StartedRun(m, key, run);
    DrainsLast(LinesStarted(m, key, run), true, true);
    var on := Apply(LinesStarted(m, key, run), Drain(true, true));
    LineStalls(on, run);
    var begun := Apply(on, NextLine);
    PayloadKeepsReplay(begun, Plain(Esc), true, true);
    var escaped := Apply(begun, Payload(Plain(Esc), true, true));
    LineStalls(escaped, run.(next := run.next + 1));
    ResumeKeepsLeftover(Apply(escaped, NextLine), m.state, m.frames);
  }
}
