/**
 The macro record/replay machine: `q` records typed keys into a register, `@` queues a register's keys,
 and one budget bounds everything a typed key expands to.
 */
module MacroMachine {
  import opened Options
  import opened Octets
  import opened KeyCodec

  const MACRO_KEY_CAP: nat := 100_000

  datatype Recording = Recording(reg: Scalar, keys: seq<Key>)

  /** The lines a linewise `@` still has to run on, and the register's bytes. */
  datatype LineRun = LineRun(next: nat, last: nat, bytes: seq<Byte>)

  datatype State = State(
    recording: Option<Recording>,
    pendingQ: bool,
    pendingAt: bool,
    lastPlayed: Option<Scalar>,
    lastRecorded: Option<Scalar>,
    queue: seq<Key>,
    budget: nat,
    lineRun: Option<LineRun>)

  const INITIAL := State(None, false, false, None, None, [], 0, None)

  datatype Step =
    | Dispatch(key: Key)
    | Consumed
    | Store(reg: Scalar, bytes: seq<Byte>)
    | Replay(reg: Scalar)
    | RepeatEx
    | OpenCmdWin(ring: Scalar)
    | NoPreviousRegister

  datatype Stepped = Stepped(state: State, step: Step)

  /** The key event a step works on, and the gates the session derives for it. */
  datatype Event = Event(key: Key, fromReplay: bool, normal: bool, qCmd: bool)

  // ----- Keys

  predicate IsChord(key: Key) {
    key.mods.ctrl || key.mods.alt || key.mods.sup || key.mods.hyper || key.mods.meta
  }

  predicate IsBare(key: Key, c: Scalar) {
    key.code == Char(c) && !IsChord(key)
  }

  /** A character key counts as itself bare or with Shift alone, which the character already says. */
  lemma {:induction false} BareOrShifted(c: Scalar, mods: Mods)
    ensures IsBare(Key(Char(c), mods), c) <==> mods == NONE || mods == NONE.(shift := true)
  {
  }

  const Q: Scalar := 113
  const UPPER_Q: Scalar := 81
  const AT: Scalar := 64
  const COLON: Scalar := 58
  const QUOTE: Scalar := 34

  predicate IsDigit(c: Scalar) {
    48 <= c <= 57
  }

  /** A register `q` can record into. */
  predicate NamesRegister(key: Key) {
    key.code.Char? && !IsChord(key) && (IsLetter(key.code.c) || IsDigit(key.code.c) || key.code.c == QUOTE)
  }

  /** `q:`, `q/` and `q?` open the command-line window. */
  predicate NamesCmdWin(key: Key) {
    key.code.Char? && !IsChord(key) && (key.code.c == COLON || key.code.c == 47 || key.code.c == 63)
  }

  // ----- One key

  predicate Stops(s: State, e: Event) {
    e.qCmd && !e.fromReplay && !s.pendingQ && !s.pendingAt && s.recording.Some? && IsBare(e.key, Q)
  }

  /** The state after the budget reset and the capture of a typed key. */
  function Captured(s: State, e: Event): State {
    if e.fromReplay then s
    else s.(budget := MACRO_KEY_CAP,
            recording := if s.recording.Some?
                         then Some(s.recording.value.(keys := s.recording.value.keys + [e.key]))
                         else None)
  }

  /** The register that `@` then `key` replays; `:` stands for the last Ex line. */
  function AtTarget(s: State, key: Key): Option<Scalar> {
    if IsChord(key) || !key.code.Char? then None
    else
      var c := key.code.c;
      if IsLetter(c) then Some(ToLower(c))
      else if IsDigit(c) || c == QUOTE || c == COLON then Some(c)
      else if c == AT then s.lastPlayed
      else None
  }

  function Stop(s: State): Stepped
    requires s.recording.Some?
  {
    var r := s.recording.value;
    Stepped(s.(budget := MACRO_KEY_CAP, recording := None, lastRecorded := Some(ToLower(r.reg))),
            Store(r.reg, EncodeAll(r.keys)))
  }

  function AfterQ(s: State, key: Key): Stepped {
    if NamesRegister(key) then
      Stepped(s.(pendingQ := false, recording := Some(Recording(key.code.c, []))), Consumed)
    else if NamesCmdWin(key) then Stepped(s.(pendingQ := false), OpenCmdWin(key.code.c))
    else Stepped(s.(pendingQ := false), Consumed)
  }

  function AfterAt(s: State, key: Key): Stepped {
    var s' := s.(pendingAt := false);
    if IsBare(key, AT) && s.lastPlayed.None? then Stepped(s', NoPreviousRegister)
    else match AtTarget(s, key)
      case None => Stepped(s', Consumed)
      case Some(c) =>
        Stepped(s'.(lastPlayed := Some(c)), if c == COLON then RepeatEx else Replay(c))
  }

  function AtBoundary(s: State, e: Event): Stepped {
    if e.qCmd && s.recording.None? && IsBare(e.key, Q) then Stepped(s.(pendingQ := true), Consumed)
    else if e.normal && IsBare(e.key, AT) then Stepped(s.(pendingAt := true), Consumed)
    else if e.normal && IsBare(e.key, UPPER_Q) then
      match s.lastRecorded
      case None => Stepped(s, Consumed)
      case Some(c) => Stepped(s.(lastPlayed := Some(c)), Replay(c))
    else Stepped(s, Dispatch(e.key))
  }

  function StepGated(s: State, e: Event): Stepped {
    if Stops(s, e) then Stop(s)
    else
      var c := Captured(s, e);
      if c.pendingQ then AfterQ(c, e.key)
      else if c.pendingAt then AfterAt(c, e.key)
      else AtBoundary(c, e)
  }

  // ----- Replay

  function Min(a: nat, b: nat): nat {
    if a < b then a else b
  }

  /** Queue as many of the register's keys as the budget allows. */
  function Enqueued(s: State, bytes: seq<Byte>): State {
    var keys := Decode(bytes);
    var take := Min(|keys|, s.budget);
    s.(queue := s.queue + keys[..take], budget := s.budget - take)
  }

  predicate FitsBudget(s: State, bytes: seq<Byte>) {
    |Decode(bytes)| <= s.budget
  }

  /** Start the next line of a linewise run, if the queue is dry; the line to put the cursor on. */
  function NextLineRun(s: State): (State, Option<nat>) {
    if s.queue != [] || s.lineRun.None? then (s, None)
    else
      var run := s.lineRun.value;
      if run.next > run.last then (s.(lineRun := None), None)
      else
        var bytes := run.bytes + ESC;
        var ran := Enqueued(s, bytes);
        (ran.(lineRun := if FitsBudget(s, bytes) then Some(run.(next := run.next + 1)) else None),
         Some(run.next))
  }

  predicate ReplayPending(s: State) {
    s.queue != [] || s.lineRun.Some?
  }

  datatype Suspended = Suspended(queue: seq<Key>, lineRun: Option<LineRun>)

  function Suspend(s: State): State {
    s.(queue := [], lineRun := None)
  }

  function SetAside(s: State): Suspended {
    Suspended(s.queue, s.lineRun)
  }

  /** The saved keys come first, then whatever the inner run left queued. */
  function Resume(s: State, saved: Suspended): State {
    s.(queue := saved.queue + s.queue, lineRun := if saved.lineRun.Some? then saved.lineRun else s.lineRun)
  }

  /** Replaying what was recorded, within budget, queues the same keys as the codec normalises them. */
  lemma {:induction false} ReplayOfRecorded(s: State, keys: seq<Key>)
    ensures Decode(EncodeAll(keys)) == NormalForms(keys)
    ensures |NormalForms(keys)| <= s.budget ==>
              Enqueued(s, EncodeAll(keys)).queue == s.queue + NormalForms(keys)
  {
    DecodeOfEncodeAll(keys, []);
    assert EncodeAll(keys) + [] == EncodeAll(keys);
    assert Decode([]) == [];
    assert NormalForms(keys)[..|NormalForms(keys)|] == NormalForms(keys);
  }

  /** Saved keys come back ahead of any the nested run left, so it restores the outer keys exactly when it
      drained its own, and the outer line run as well
      exactly when, besides, the outer replay had one or the nested one left none. */
  lemma {:induction false} ResumeRestoresIffDrained(outer: State, inner: State)
    ensures var q := Resume(inner, SetAside(outer)).queue;
            && |q| == |outer.queue| + |inner.queue|
            && q[..|outer.queue|] == outer.queue && q[|outer.queue|..] == inner.queue
    ensures Resume(inner, SetAside(outer)).queue == outer.queue <==> inner.queue == []
    ensures SetAside(Resume(inner, SetAside(outer))) == SetAside(outer)
       <==> inner.queue == [] && (outer.lineRun.Some? || inner.lineRun.None?)
    ensures Resume(Suspend(outer), SetAside(outer)) == outer
  {
    if outer.queue + inner.queue == outer.queue {
      assert |outer.queue + inner.queue| == |outer.queue| + |inner.queue|;
    }
  }

  /** A replay adds the first keys the register decodes to, as many as the budget allows, behind the keys
      already queued, and takes them off the budget. */
  lemma {:induction false} ReplayQueuesPrefix(s: State, bytes: seq<Byte>)
    ensures var s', n := Enqueued(s, bytes), |s.queue|;
            && n <= |s'.queue| && s'.queue[..n] == s.queue && s'.queue[n..] <= Decode(bytes)
            && s'.budget + |s'.queue| == s.budget + n
            && (s'.queue[n..] == Decode(bytes) || s'.budget == 0)
            && s' == s.(queue := s'.queue, budget := s'.budget)
  {
  }

  // ----- A line of a linewise run

  /** The queue is dry and a linewise run has a line left. */
  predicate LineDue(s: State) {
    s.queue == [] && s.lineRun.Some? && s.lineRun.value.next <= s.lineRun.value.last
  }

  /** Each line begun is the run's next one, and the run then goes on with the line after it, unless the
      budget cut the line short; with keys queued, or no line left, none is begun. */
  lemma {:induction false} LinesInOrder(s: State)
    ensures NextLineRun(s).1 == if LineDue(s) then Some(s.lineRun.value.next) else None
    ensures LineDue(s) ==>
              var run := s.lineRun.value;
              NextLineRun(s).0.lineRun
              == if |Decode(run.bytes + ESC)| <= s.budget then Some(LineRun(run.next + 1, run.last, run.bytes))
                 else None
    ensures !LineDue(s) ==>
              NextLineRun(s).0 == if s.queue == [] then s.(lineRun := None) else s
  {
  }

  /** A line's keys are the register's and a final `<Esc>` exactly when the register stops between keys and
      the budget has room for the `<Esc>` too. */
  lemma {:induction false} LineEndsInEscIff(s: State)
    requires LineDue(s)
    ensures var bytes := s.lineRun.value.bytes;
            NextLineRun(s).0.queue == Decode(bytes) + [Plain(Esc)] <==>
              EndsClean(bytes) && |Decode(bytes)| < s.budget
  {
    var bytes := s.lineRun.value.bytes;
    var keys, whole := Decode(bytes + ESC), Decode(bytes) + [Plain(Esc)];
    EscReadIffEndsClean(bytes);
    EscAddsLateKey(bytes);
    var queued := keys[..Min(|keys|, s.budget)];
    assert NextLineRun(s).0.queue == queued;
    assert |whole| == |Decode(bytes)| + 1;
    if queued == whole {
      assert |queued| == |keys|;
      assert queued == keys;
    }
    if keys == whole && |whole| <= s.budget {
      assert keys[..|keys|] == keys;
    }
  }

  /** The register names no key and swallows the `<Esc>` after it. */
  predicate NamesNothing(bytes: seq<Byte>) {
    Decode(bytes) == [] && Swallows(bytes)
  }

  lemma {:induction false} NamesNothingIff(bytes: seq<Byte>)
    ensures NamesNothing(bytes) <==> Decode(bytes + ESC) == []
  {
    EscAddsLateKey(bytes);
    NoLateKeyIff(bytes);
    assert |Decode(bytes) + LateKey(bytes)| == |Decode(bytes)| + |LateKey(bytes)|;
  }

  /** A started line leaves the queue dry with the run still on exactly when the register names no key and
      swallows its `<Esc>`; nothing else has changed then. */
  lemma {:induction false} LineStallsIffNoKeys(s: State)
    requires LineDue(s)
    ensures var s', run := NextLineRun(s).0, s.lineRun.value;
            && (s'.queue == [] && s'.lineRun.Some? <==> NamesNothing(run.bytes))
            && (NamesNothing(run.bytes) ==> s' == OneLineOn(s, run))
  {
    NamesNothingIff(s.lineRun.value.bytes);
    LineStallsIff(s, Decode(s.lineRun.value.bytes + ESC));
  }

  function OneLineOn(s: State, run: LineRun): State {
    s.(lineRun := Some(run.(next := run.next + 1)))
  }

  lemma {:induction false} LineStallsIff(s: State, keys: seq<Key>)
    requires LineDue(s) && keys == Decode(s.lineRun.value.bytes + ESC)
    ensures var s', run := NextLineRun(s).0, s.lineRun.value;
            && (s'.queue == [] && s'.lineRun.Some? <==> keys == [])
            && (keys == [] ==> s' == OneLineOn(s, run))
  {
    assert NextLineRun(s).0.queue == keys[..Min(|keys|, s.budget)];
  }

  /** However it stands, a dry queue after the start of a line means the run is over or has no keys. */
  lemma {:induction false} DryAfterLine(s: State)
    ensures var s' := NextLineRun(s).0;
            s'.queue == [] && s'.lineRun.Some? ==> NamesNothing(s'.lineRun.value.bytes)
  {
    if LineDue(s) {
      LineStallsIffNoKeys(s);
    }
  }

  /** A register without keys: one bare tag byte, on any lines. */
  lemma {:induction false} TagAloneStalls(s: State, first: nat, last: nat)
    requires s.queue == [] && first <= last && s.lineRun == Some(LineRun(first, last, [TAG]))
    ensures NextLineRun(s).0 == s.(lineRun := Some(LineRun(first + 1, last, [TAG])))
    ensures ReplayPending(NextLineRun(s).0)
  {
    TruncatedTagSwallowsEsc();
    NamesNothingIff([TAG]);
    LineStallsIffNoKeys(s);
  }

  // ----- The class

  class MacroState {
    var recording: Option<Recording>
    var pendingQ: bool
    var pendingAt: bool
    var lastPlayed: Option<Scalar>
    var lastRecorded: Option<Scalar>
    var queue: seq<Key>
    var budget: nat
    var lineRun: Option<LineRun>

    function View(): State
      reads this
    {
      State(recording, pendingQ, pendingAt, lastPlayed, lastRecorded, queue, budget, lineRun)
    }

    constructor ()
      ensures View() == INITIAL
    {
      recording, pendingQ, pendingAt, lastPlayed, lastRecorded := None, false, false, None, None;
      queue, budget, lineRun := [], 0, None;
    }

    method NextReplay() returns (key: Option<Key>)
      modifies this`queue
      ensures old(queue) == [] ==> key == None && queue == []
      ensures old(queue) != [] ==> key == Some(old(queue)[0]) && queue == old(queue)[1..]
    {
      if queue == [] {
        return None;
      }
      key := Some(queue[0]);
      queue := queue[1..];
    }

    method ReplayBytes(bytes: seq<Byte>) returns (full: bool)
      modifies this`queue, this`budget
      ensures View() == Enqueued(old(View()), bytes)
      ensures full <==> FitsBudget(old(View()), bytes)
    {
      var keys := DecodeBytes(bytes);
      var take := Min(|keys|, budget);
      full := take == |keys|;
      budget := budget - take;
      queue := queue + keys[..take];
    }

    method ReplayLines(first: nat, last: nat, bytes: seq<Byte>)
      modifies this`lineRun
      ensures View() == old(View()).(lineRun := Some(LineRun(first, last, bytes)))
    {
      lineRun := Some(LineRun(first, last, bytes));
    }

    method NextLine() returns (line: Option<nat>)
      modifies this
      ensures (View(), line) == NextLineRun(old(View()))
    {
      if queue != [] || lineRun.None? {
        return None;
      }
      var run := lineRun.value;
      if run.next > run.last {
        lineRun := None;
        return None;
      }
      lineRun := Some(run.(next := run.next + 1));
      var full := ReplayBytes(run.bytes + ESC);
      if !full {
        lineRun := None;
      }
      line := Some(run.next);
    }

    method SuspendReplay() returns (saved: Suspended)
      modifies this`queue, this`lineRun
      ensures !ReplayPending(View()) && Resume(View(), saved) == old(View())
    {
      saved := Suspended(queue, lineRun);
      queue, lineRun := [], None;
    }

    method ResumeReplay(saved: Suspended)
      modifies this`queue, this`lineRun
      ensures View() == Resume(old(View()), saved)
      ensures queue == saved.queue + old(queue)
      ensures SetAside(View()) == saved
         <==> old(queue) == [] && (saved.lineRun.Some? || old(lineRun).None?)
    {
      if saved.queue + queue == saved.queue {
        assert |saved.queue + queue| == |saved.queue| + |queue|;
      }
      queue := saved.queue + queue;
      if saved.lineRun.Some? {
        lineRun := saved.lineRun;
      }
    }

    method FlushReplay()
      modifies this`queue
      ensures View() == old(View()).(queue := [])
    {
      queue := [];
    }

    method InterruptReplay()
      modifies this`queue, this`lineRun
      ensures View() == old(View()).(queue := [], lineRun := None)
    {
      queue, lineRun := [], None;
    }

    method OnKey(e: Event) returns (step: Step)
      modifies this
      ensures Stepped(View(), step) == StepGated(old(View()), e)
    {
      if !e.fromReplay {
        budget := MACRO_KEY_CAP;
      }
      if e.qCmd && !e.fromReplay && !pendingQ && !pendingAt && recording.Some? && IsBare(e.key, Q) {
        var r := recording.value;
        var bytes := EncodeKeys(r.keys);
        recording := None;
        lastRecorded := Some(ToLower(r.reg));
        return Store(r.reg, bytes);
      }
      if !e.fromReplay && recording.Some? {
        recording := Some(recording.value.(keys := recording.value.keys + [e.key]));
      }
      if pendingQ {
        pendingQ := false;
        step := NameAfterQ(e.key);
      } else if pendingAt {
        pendingAt := false;
        step := NameAfterAt(e.key);
      } else {
        step := Arm(e);
      }
    }

    method NameAfterQ(key: Key) returns (step: Step)
      requires !pendingQ
      modifies this
      ensures Stepped(View(), step) == AfterQ(old(View()), key)
    {
      if key.code.Char? && !IsChord(key) {
        var c := key.code.c;
        if IsLetter(c) || IsDigit(c) || c == QUOTE {
          recording := Some(Recording(c, []));
          return Consumed;
        }
        if c == COLON || c == 47 || c == 63 {
          return OpenCmdWin(c);
        }
      }
      return Consumed;
    }

    method NameAfterAt(key: Key) returns (step: Step)
      requires !pendingAt
      modifies this
      ensures Stepped(View(), step) == AfterAt(old(View()), key)
    {
      if IsBare(key, AT) && lastPlayed.None? {
        return NoPreviousRegister;
      }
      var target := AtTarget(View(), key);
      if target.None? {
        return Consumed;
      }
      lastPlayed := target;
      return if target.value == COLON then RepeatEx else Replay(target.value);
    }

    method Arm(e: Event) returns (step: Step)
      modifies this
      ensures Stepped(View(), step) == AtBoundary(old(View()), e)
    {
      if e.qCmd && recording.None? && IsBare(e.key, Q) {
        pendingQ := true;
        return Consumed;
      }
      if e.normal && IsBare(e.key, AT) {
        pendingAt := true;
        return Consumed;
      }
      if e.normal && IsBare(e.key, UPPER_Q) {
        if lastRecorded.None? {
          return Consumed;
        }
        lastPlayed := lastRecorded;
        return Replay(lastRecorded.value);
      }
      return Dispatch(e.key);
    }
  }
}
