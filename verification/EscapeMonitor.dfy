/** The Escape key monitor of a Computer Use turn
    (crates/codex-platform/src/computer_interruption.rs).

    A thread polls: it samples the shared generation and turn under the lock, reads the key,
    and on a fresh press takes the lock again to take the turn, if the generation is still the
    one it sampled. Turns are armed and disarmed by other threads in between. */
module EscapeMonitor {

  import opened Wrappers

  /** The generation is a wrapping 64-bit counter. */
  const GENERATIONS: nat := 0x1_0000_0000_0000_0000
  const NO_GENERATION: nat := GENERATIONS - 1

  function Next(generation: nat): nat { (generation + 1) % GENERATIONS }

  datatype Turn = Turn(thread: string, turn: string)

  /** Where the polling thread is: before a sample, holding one, or about to take the turn. */
  datatype Phase = Idle | Sampled(generation: nat, turn: Option<Turn>) | Pressing

  datatype Monitor = Monitor(
    generation: nat, turn: Option<Turn>,
    observed: nat, wasDown: bool, phase: Phase)

  function Started(): Monitor { Monitor(0, None, NO_GENERATION, false, Idle) }

  function Arm(m: Monitor, turn: Turn): Monitor { m.(generation := Next(m.generation), turn := Some(turn)) }

  function Disarm(m: Monitor): Monitor { m.(generation := Next(m.generation), turn := None) }

  predicate IsTurn(m: Monitor, turn: Turn) { m.turn == Some(turn) }

  function DisarmTurn(m: Monitor, turn: Turn): Monitor { if IsTurn(m, turn) then Disarm(m) else m }

  function Sample(m: Monitor): Monitor { m.(phase := Sampled(m.generation, m.turn)) }

  /** What the thread does with its sample once it has read the key: a new generation is only a
      baseline, and afterwards the key must have been up before it counts as pressed. */
  function ReadKey(m: Monitor, down: bool): Monitor
    requires m.phase.Sampled?
  {
    if m.observed != m.phase.generation then m.(observed := m.phase.generation, wasDown := down, phase := Idle)
    else if m.phase.turn.Some? then m.(wasDown := down, phase := if down && !m.wasDown then Pressing else Idle)
    else m.(phase := Idle)
  }

  /** The turn taken by an Escape press, if the sampled generation is still current. */
  function Taken(m: Monitor): Option<Turn> {
    if m.phase.Pressing? && m.generation == m.observed then m.turn else None
  }

  function Take(m: Monitor): Monitor {
    if m.phase.Pressing? && m.generation == m.observed
    then m.(generation := Next(m.generation), turn := None, phase := Idle)
    else m.(phase := Idle)
  }

  // ----- every interleaving, with its history -----

  datatype KeySample = KeySample(generation: nat, down: bool)

  /** `turns[g]` is the turn armed in the g-th generation, counted without wrapping. `sampled`
      is the generation of the sample in hand and `seen` that of the last baseline. */
  datatype History = History(
    m: Monitor,
    turns: seq<Option<Turn>>, sampled: nat, seen: Option<nat>,
    samples: seq<KeySample>, interrupts: seq<Interrupt>)

  /** An interruption: the turn it took, the generation it was sampled in, and the number of the
      key sample that showed the press. */
  datatype Interrupt = Interrupt(turn: Turn, generation: nat, sample: nat)

  function Begun(): History { History(Started(), [None], 0, None, [], []) }

  datatype Action =
    | Arms(turn: Turn) | Disarms | DisarmsTurn(turn: Turn)
    | Samples | ReadsKey(down: bool) | TakesTurn

  predicate Enabled(h: History, a: Action) {
    match a
    case Samples => h.m.phase.Idle?
    case ReadsKey(_) => h.m.phase.Sampled?
    case TakesTurn => h.m.phase.Pressing?
    case _ => true
  }

  /** How often the generation has changed; `turns` always holds the initial generation. */
  function Changes(h: History): nat { if h.turns == [] then 0 else |h.turns| - 1 }

  function LastSample(h: History): nat { if h.samples == [] then 0 else |h.samples| - 1 }

  function Do(h: History, a: Action): History
    requires Enabled(h, a) && h.turns != []
  {
    match a
    case Arms(turn) => h.(m := Arm(h.m, turn), turns := h.turns + [Some(turn)])
    case Disarms => h.(m := Disarm(h.m), turns := h.turns + [None])
    case DisarmsTurn(turn) =>
      if IsTurn(h.m, turn) then h.(m := DisarmTurn(h.m, turn), turns := h.turns + [None]) else h
    case Samples => h.(m := Sample(h.m), sampled := Changes(h))
    case ReadsKey(down) =>
      h.(m := ReadKey(h.m, down), seen := if h.m.observed != h.m.phase.generation then Some(h.sampled) else h.seen,
         samples := h.samples + [KeySample(h.sampled, down)])
    case TakesTurn =>
      if h.m.generation == h.m.observed then
        h.(m := Take(h.m), turns := h.turns + [None],
           interrupts := match Taken(h.m)
             case Some(turn) => h.interrupts + [Interrupt(turn, h.sampled, LastSample(h))]
             case None => h.interrupts)
      else h.(m := Take(h.m))
  }

  /** Sample `at` shows the key down after an earlier sample of the same generation saw it up. */
  ghost predicate FreshPress(samples: seq<KeySample>, generation: nat, at: nat) {
    && at < |samples| && samples[at] == KeySample(generation, true)
    && SeenUp(samples[..at], generation)
  }

  ghost predicate SeenUp(samples: seq<KeySample>, generation: nat) {
    KeySample(generation, false) in samples
  }

  /** Each interruption took the turn armed in the generation it sampled, on a fresh press of
      that generation, and no generation is interrupted twice. */
  ghost predicate InterruptsJustified(h: History) {
    && (forall i :: 0 <= i < |h.interrupts| ==>
          var x := h.interrupts[i];
          x.generation < |h.turns| && h.turns[x.generation] == Some(x.turn)
            && FreshPress(h.samples, x.generation, x.sample))
    && (forall i, j :: 0 <= i < j < |h.interrupts| ==> h.interrupts[i].generation < h.interrupts[j].generation)
  }

  ghost predicate Inv(h: History) {
    && h.turns != []
    && h.m.generation == Changes(h) % GENERATIONS
    && h.turns[Changes(h)] == h.m.turn
    && h.sampled <= Changes(h)
    && (h.m.phase.Sampled? ==> h.m.phase.generation == h.sampled % GENERATIONS && h.m.phase.turn == h.turns[h.sampled])
    && h.m.observed == (if h.seen.Some? then h.seen.value % GENERATIONS else NO_GENERATION)
    && (h.seen.Some? ==> h.seen.value <= h.sampled && (h.m.wasDown || SeenUp(h.samples, h.seen.value)))
    && (h.m.phase.Pressing? && h.seen.Some? ==>
       h.seen.value == h.sampled && h.samples != [] && FreshPress(h.samples, h.sampled, |h.samples| - 1))
    && (h.m.phase.Pressing? && h.seen.None? ==> h.sampled == NO_GENERATION)
    && InterruptsJustified(h)
    && (forall i :: 0 <= i < |h.interrupts| ==> h.interrupts[i].generation < Changes(h))
  }

  lemma MoreSamplesKeepPresses(h: History, s: KeySample)
    requires InterruptsJustified(h)
    ensures InterruptsJustified(h.(samples := h.samples + [s]))
  {
    forall i | 0 <= i < |h.interrupts|
      ensures FreshPress(h.samples + [s], h.interrupts[i].generation, h.interrupts[i].sample)
    {
      assert FreshPress(h.samples, h.interrupts[i].generation, h.interrupts[i].sample);
      assert (h.samples + [s])[..h.interrupts[i].sample] == h.samples[..h.interrupts[i].sample];
    }
  }

  lemma ReadKeyKeepsInv(h: History, down: bool)
    requires Inv(h) && Enabled(h, ReadsKey(down)) && Changes(h) < GENERATIONS
    ensures Inv(Do(h, ReadsKey(down)))
  {
    var s := KeySample(h.sampled, down);
    var samples := h.samples + [s];
    MoreSamplesKeepPresses(h, s);
    assert samples[..|h.samples|] == h.samples;
    assert samples[|samples| - 1] == s;
    assert forall x :: x in h.samples ==> x in samples;
  }

  // Another generation begins: the turns of the earlier ones stay as they were.
  lemma ChangeKeepsInterrupts(h: History, turn: Option<Turn>)
    requires InterruptsJustified(h)
    ensures InterruptsJustified(h.(turns := h.turns + [turn]))
  {
  }

  lemma TakesTurnKeepsInv(h: History)
    requires Inv(h) && Enabled(h, TakesTurn) && Changes(Do(h, TakesTurn)) < GENERATIONS
    ensures Inv(Do(h, TakesTurn))
  {
    ChangeKeepsInterrupts(h, None);
    if h.m.generation == h.m.observed {
      assert h.seen.Some? && h.sampled == Changes(h);
    }
  }

  lemma StepKeepsInv(h: History, a: Action)
    requires Inv(h) && Enabled(h, a) && Changes(Do(h, a)) < GENERATIONS
    ensures Inv(Do(h, a))
  {
    match a {
      case Arms(turn) => ChangeKeepsInterrupts(h, Some(turn));
      case Disarms => ChangeKeepsInterrupts(h, None);
      case DisarmsTurn(_) => ChangeKeepsInterrupts(h, None);
      case Samples =>
      case ReadsKey(down) => ReadKeyKeepsInv(h, down);
      case TakesTurn => TakesTurnKeepsInv(h);
    }
  }

  function Exec(h: History, actions: seq<Action>): Option<History>
    requires h.turns != []
    decreases |actions|
  {
    if actions == [] then Some(h)
    else if Enabled(h, actions[0]) then Exec(Do(h, actions[0]), actions[1..])
    else None
  }

  lemma {:induction false} RunKeepsInv(h: History, actions: seq<Action>)
    requires Inv(h) && Exec(h, actions).Some? && Changes(Exec(h, actions).value) < GENERATIONS
    ensures Inv(Exec(h, actions).value)
    decreases |actions|
  {
    if actions != [] {
      ChangesOnlyGrow(Do(h, actions[0]), actions[1..]);
      StepKeepsInv(h, actions[0]);
      RunKeepsInv(Do(h, actions[0]), actions[1..]);
    }
  }

  lemma {:induction false} ChangesOnlyGrow(h: History, actions: seq<Action>)
    requires h.turns != [] && Exec(h, actions).Some?
    ensures Exec(h, actions).value.turns != [] && Changes(h) <= Changes(Exec(h, actions).value)
    decreases |actions|
  {
    if actions != [] {
      ChangesOnlyGrow(Do(h, actions[0]), actions[1..]);
    }
  }

  /** In every interleaving with fewer than 2^64 generations the interruptions are justified. */
  lemma InterruptsTakeTheSampledTurn(actions: seq<Action>)
    requires Exec(Begun(), actions).Some? && Changes(Exec(Begun(), actions).value) < GENERATIONS
    ensures InterruptsJustified(Exec(Begun(), actions).value)
  {
    RunKeepsInv(Begun(), actions);
  }

  // ----- a fresh press does interrupt, and only the named turn is disarmed -----

  /** The thread remembers the generation and the key of its last reading. */
  ghost predicate Tracks(h: History) {
    h.samples != [] ==>
      var last := h.samples[|h.samples| - 1];
      && last.generation < |h.turns|
      && h.m.observed == last.generation % GENERATIONS
      && (h.turns[last.generation].Some? ==> h.m.wasDown == last.down)
  }

  lemma ReadingTracks(h: History, down: bool)
    requires h.m.phase.Sampled? && h.sampled < |h.turns|
    requires h.m.phase.generation == h.sampled % GENERATIONS && h.m.phase.turn == h.turns[h.sampled]
    ensures Tracks(Do(h, ReadsKey(down)))
  {
  }

  lemma ActionTracks(h: History, a: Action)
    requires h.turns != [] && Tracks(h) && Enabled(h, a) && !a.ReadsKey?
    ensures Tracks(Do(h, a))
  {
    assert Do(h, a).samples == h.samples && Do(h, a).m.observed == h.m.observed && Do(h, a).m.wasDown == h.m.wasDown;
  }

  lemma StepTracks(h: History, a: Action)
    requires Inv(h) && Tracks(h) && Enabled(h, a)
    ensures Tracks(Do(h, a))
  {
    if a.ReadsKey? { ReadingTracks(h, a.down); } else { ActionTracks(h, a); }
  }

  lemma {:induction false} RunTracks(h: History, actions: seq<Action>)
    requires Inv(h) && Tracks(h) && Exec(h, actions).Some? && Changes(Exec(h, actions).value) < GENERATIONS
    ensures Tracks(Exec(h, actions).value)
    decreases |actions|
  {
    if actions != [] {
      ChangesOnlyGrow(Do(h, actions[0]), actions[1..]);
      StepKeepsInv(h, actions[0]);
      StepTracks(h, actions[0]);
      RunTracks(Do(h, actions[0]), actions[1..]);
    }
  }

  /** The turn is armed, and the last reading saw the key up in its generation. */
  ghost predicate IsReady(h: History, turn: Turn) {
    && h.m.phase.Idle? && h.m.turn == Some(turn)
    && h.samples != [] && h.samples[|h.samples| - 1] == KeySample(Changes(h), false)
  }

  ghost predicate IsInterrupted(h: History, end: Option<History>, turn: Turn) {
    && end.Some? && end.value.m.turn == None && end.value.m.phase.Idle?
    && end.value.interrupts == h.interrupts + [Interrupt(turn, Changes(h), |h.samples|)]
  }

  /** One poll that finds the key down. */
  function PollDown(): seq<Action> { [Samples, ReadsKey(true), TakesTurn] }

  lemma PressInterrupts(h: History, turn: Turn)
    requires Inv(h) && Tracks(h) && IsReady(h, turn)
    ensures IsInterrupted(h, Exec(h, PollDown()), turn)
  {
    var sampled := Do(h, Samples);
    var pressing := Do(sampled, ReadsKey(true));
    assert PollDown()[1..] == [ReadsKey(true), TakesTurn];
    assert [ReadsKey(true), TakesTurn][1..] == [TakesTurn] && [TakesTurn][1..] == [];
    assert pressing.m.phase.Pressing? && LastSample(pressing) == |h.samples|;
    assert Exec(h, PollDown()) == Some(Do(pressing, TakesTurn));
  }

  lemma ReachedTracks(actions: seq<Action>)
    requires Exec(Begun(), actions).Some? && Changes(Exec(Begun(), actions).value) < GENERATIONS
    ensures Inv(Exec(Begun(), actions).value) && Tracks(Exec(Begun(), actions).value)
  {
    RunKeepsInv(Begun(), actions);
    RunTracks(Begun(), actions);
  }

  /** In every run: once a turn is armed and the key was seen up in its generation, a poll that
      finds the key down interrupts that turn and disarms it. */
  lemma FreshPressIsTaken(actions: seq<Action>, turn: Turn)
    requires Exec(Begun(), actions).Some? && Changes(Exec(Begun(), actions).value) < GENERATIONS
    requires IsReady(Exec(Begun(), actions).value, turn)
    ensures IsInterrupted(Exec(Begun(), actions).value, Exec(Begun(), actions + PollDown()), turn)
  {
    var h, poll := Exec(Begun(), actions).value, PollDown();
    ReachedTracks(actions);
    PressInterrupts(h, turn);
    ExecConcat(Begun(), actions, poll);
  }

  /** A press that was sampled before the generation changed interrupts nothing, and polling goes on. */
  lemma StalePressIsDropped(h: History)
    requires Enabled(h, TakesTurn) && h.turns != [] && h.m.generation != h.m.observed
    ensures Do(h, TakesTurn) == h.(m := h.m.(phase := Idle))
  {
  }

  /** Disarming a turn that is not the armed one changes nothing; disarming the armed one, or any,
      begins a generation without a turn, and arming one with that turn. */
  lemma DisarmingIsExact(h: History, turn: Turn)
    requires h.turns != []
    ensures h.m.turn != Some(turn) ==> Do(h, DisarmsTurn(turn)) == h
    ensures h.m.turn == Some(turn) ==> Do(h, DisarmsTurn(turn)) == Do(h, Disarms)
    ensures var t := Do(h, Disarms); t.m.turn.None? && t.turns == h.turns + [None] && t.m.observed == h.m.observed
    ensures var t := Do(h, Arms(turn)); t.m.turn == Some(turn) && t.turns == h.turns + [Some(turn)]
  {
  }

  // ----- the bound is exact -----

  function Repeat(a: Action, n: nat): seq<Action> { seq(n, i => a) }

  /** `n` turns are armed before the thread polls for the first time. */
  function ArmedTimes(turn: Turn, n: nat): History {
    History(Monitor(n % GENERATIONS, if n == 0 then None else Some(turn), NO_GENERATION, false, Idle),
            [None] + seq(n, i => Some(turn)), 0, None, [], [])
  }

  lemma {:induction false} ExecConcat(h: History, first: seq<Action>, second: seq<Action>)
    requires h.turns != [] && Exec(h, first).Some?
    ensures Exec(h, first).value.turns != [] && Exec(h, first + second) == Exec(Exec(h, first).value, second)
    decreases |first|
  {
    if first == [] {
      assert first + second == second;
    } else {
      assert (first + second)[1..] == first[1..] + second;
      ExecConcat(Do(h, first[0]), first[1..], second);
    }
  }

  lemma {:induction false} ArmsRun(turn: Turn, n: nat)
    ensures Exec(Begun(), Repeat(Arms(turn), n)) == Some(ArmedTimes(turn, n))
  {
    if n == 0 {
      assert [None] + seq(0, i => Some(turn)) == [None];
    } else {
      ArmsRun(turn, n - 1);
      assert Repeat(Arms(turn), n) == Repeat(Arms(turn), n - 1) + [Arms(turn)];
      ExecConcat(Begun(), Repeat(Arms(turn), n - 1), [Arms(turn)]);
      var before := ArmedTimes(turn, n - 1);
      assert Exec(before, [Arms(turn)]) == Some(Do(before, Arms(turn))) by {
        assert [Arms(turn)][1..] == [];
      }
      assert ArmedTimes(turn, n).turns == before.turns + [Some(turn)];
    }
  }

  /** The run that breaks the rule at 2^64 generations: after 2^64 - 1 armed turns the generation
      equals the thread's initial value, so its first sample is taken for a later one, and an
      Escape key held down all along interrupts. */
  function HeldKeyRun(turn: Turn): seq<Action> {
    Repeat(Arms(turn), NO_GENERATION) + [Samples, ReadsKey(true), TakesTurn]
  }

  lemma HeldKeyInterrupts(turn: Turn)
    ensures var end := Exec(Begun(), HeldKeyRun(turn));
            end.Some? && Changes(end.value) == GENERATIONS && !InterruptsJustified(end.value)
  {
    var armed := ArmedTimes(turn, NO_GENERATION);
    ArmsRun(turn, NO_GENERATION);
    ExecConcat(Begun(), Repeat(Arms(turn), NO_GENERATION), [Samples, ReadsKey(true), TakesTurn]);
    var sampled := Do(armed, Samples);
    var pressing := Do(sampled, ReadsKey(true));
    var end := Do(pressing, TakesTurn);
    assert [Samples, ReadsKey(true), TakesTurn][1..] == [ReadsKey(true), TakesTurn];
    assert [ReadsKey(true), TakesTurn][1..] == [TakesTurn] && [TakesTurn][1..] == [];
    assert Exec(armed, [Samples, ReadsKey(true), TakesTurn]) == Some(end);
    assert end.interrupts == [Interrupt(turn, NO_GENERATION, 0)];
    assert end.samples[..0] == [];
    assert end.samples[..0] == [] && !SeenUp(end.samples[..0], NO_GENERATION);
    assert !FreshPress(end.samples, end.interrupts[0].generation, end.interrupts[0].sample);
  }

  /** All runs of at most `bound` generation changes are justified iff `bound` is below 2^64. */
  lemma JustifiedIffBelowWrap(bound: nat)
    ensures (forall actions :: Exec(Begun(), actions).Some? && Changes(Exec(Begun(), actions).value) <= bound
               ==> InterruptsJustified(Exec(Begun(), actions).value))
            <==> bound < GENERATIONS
  {
    if bound < GENERATIONS {
      forall actions | Exec(Begun(), actions).Some? && Changes(Exec(Begun(), actions).value) <= bound
        ensures InterruptsJustified(Exec(Begun(), actions).value)
      {
        InterruptsTakeTheSampledTurn(actions);
      }
    } else {
      var turn := Turn([], []);
      HeldKeyInterrupts(turn);
      assert Exec(Begun(), HeldKeyRun(turn)).Some?;
    }
  }

  // ----- the monitor's objects -----

  class EscapeEdge {
    var wasDown: bool

    constructor ()
      ensures !wasDown
    {
      wasDown := false;
    }

    method Reset(isDown: bool)
      modifies this
      ensures wasDown == isDown
    {
      wasDown := isDown;
    }

    method Observe(isDown: bool) returns (pressed: bool)
      modifies this
      ensures pressed <==> isDown && !old(wasDown)
      ensures wasDown == isDown
    {
      pressed := isDown && !wasDown;
      wasDown := isDown;
    }
  }

  class InterruptionMonitor {
    // under the lock
    var generation: nat
    var turn: Option<Turn>
    // local to the polling thread
    var observedGeneration: nat
    const escape: EscapeEdge
    var phase: Phase

    ghost function State(): Monitor
      reads this, escape
    {
      Monitor(generation, turn, observedGeneration, escape.wasDown, phase)
    }

    constructor ()
      ensures State() == Started() && fresh(escape)
    {
      generation, turn, observedGeneration, phase := 0, None, NO_GENERATION, Idle;
      escape := new EscapeEdge();
    }

    method ArmTurn(turn: Turn)
      modifies this`generation, this`turn
      ensures State() == Arm(old(State()), turn)
    {
      generation := Next(generation);
      this.turn := Some(turn);
    }

    method DisarmAny()
      modifies this`generation, this`turn
      ensures State() == Disarm(old(State()))
    {
      generation := Next(generation);
      turn := None;
    }

    method DisarmOne(turn: Turn)
      modifies this`generation, this`turn
      ensures State() == DisarmTurn(old(State()), turn)
    {
      if this.turn.Some? && this.turn.value.thread == turn.thread && this.turn.value.turn == turn.turn {
        generation := Next(generation);
        this.turn := None;
      }
    }

    method SampleShared()
      modifies this`phase
      ensures State() == Sample(old(State()))
    {
      phase := Sampled(generation, turn);
    }

    method PollKey(escapeIsDown: bool)
      requires phase.Sampled?
      modifies this`observedGeneration, this`phase, escape
      ensures State() == ReadKey(old(State()), escapeIsDown)
    {
      var sample := phase;
      phase := Idle;
      if observedGeneration != sample.generation {
        observedGeneration := sample.generation;
        escape.Reset(escapeIsDown);
      } else if sample.turn.Some? {
        var pressed := escape.Observe(escapeIsDown);
        if pressed {
          phase := Pressing;
        }
      }
    }

    method TakeTurn() returns (interrupted: Option<Turn>)
      requires phase.Pressing?
      modifies this`generation, this`turn, this`phase
      ensures interrupted == Taken(old(State()))
      ensures State() == Take(old(State()))
    {
      interrupted := None;
      phase := Idle;
      if generation == observedGeneration {
        generation := Next(generation);
        interrupted := turn;
        turn := None;
      }
    }
  }
}
