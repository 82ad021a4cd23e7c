/**
 * The files of a transfer around the gate (electron/services/SftpService.ts, `downloadFile` and `uploadFile`):
 * each asks for a slot once, works, and gives the slot back in its `finally`, whether it returned or threw.
 */
module TransferFiles {
  import opened Basics
  import opened TransferGate

  /** Where a file's code stands: held up in `acquire`, in the body of the `try`, or past the `finally`. */
  datatype Stage = Held | Working | Over(threw: bool)

  datatype Files = Files(gate: Gate, stages: map<Id, Stage>)

  const NO_FILES := Files(IDLE, map[])

  /** A file starts, the continuation of a woken one runs, or a body returns or throws. */
  datatype Turn = Start(id: Id) | Continue | Finish(id: Id, threw: bool)

  /** Only what the code's own position allows; nothing is said about the gate's bookkeeping. */
  predicate Possible(fs: Files, turn: Turn) {
    match turn
    case Start(id) => id !in fs.stages
    case Continue => fs.gate.woken != []
    case Finish(id, _) => id in fs.stages && fs.stages[id].Working?
  }

  /** The call of the gate a turn makes. */
  function GateEvent(turn: Turn): Event {
    match turn
    case Start(id) => Event.Acquire(id)
    case Continue => Event.Resume
    case Finish(id, _) => Event.Release(id)
  }

  /** The gate's record of the files is their own. */
  ghost predicate InStep(fs: Files) {
    && (forall id :: id in fs.gate.holders <==> id in fs.stages && fs.stages[id].Working?)
    && (forall id :: id in fs.gate.woken || id in fs.gate.waiters <==> id in fs.stages && fs.stages[id].Held?)
  }

  function After(fs: Files, turn: Turn, cap: nat): Files
    requires Possible(fs, turn) && Enabled(fs.gate, GateEvent(turn))
  {
    var gate := Step(fs.gate, GateEvent(turn), cap);
    match turn
    case Start(id) => Files(gate, fs.stages[id := if fs.gate.active < cap then Working else Held])
    case Continue => Files(gate, fs.stages[fs.gate.woken[0] := Working])
    case Finish(id, threw) => Files(gate, fs.stages[id := Over(threw)])
  }

  /**
   * Whatever turn the code can take, the gate is called as it has to be: nobody asks twice or gives back what it has
   * not.
   */
  lemma PossibleIsEnabled(fs: Files, turn: Turn)
    requires InStep(fs) && Possible(fs, turn)
    ensures Enabled(fs.gate, GateEvent(turn))
  {}

  lemma StartKeepsInStep(fs: Files, id: Id, cap: nat)
    requires InStep(fs) && Possible(fs, Start(id))
    ensures Enabled(fs.gate, Event.Acquire(id)) && InStep(After(fs, Start(id), cap))
  {
    var gate := Step(fs.gate, Event.Acquire(id), cap);
    assert forall x :: x in gate.waiters <==> x in fs.gate.waiters || (x == id && fs.gate.active >= cap);
  }

  lemma ContinueKeepsInStep(fs: Files, cap: nat)
    requires InStep(fs) && Inv(fs.gate, cap) && Possible(fs, Continue)
    ensures InStep(After(fs, Continue, cap))
  {
    WokenLeaves(fs.gate);
    assert fs.gate.woken[0] in fs.gate.woken;
  }

  lemma FinishKeepsInStep(fs: Files, id: Id, threw: bool, cap: nat)
    requires InStep(fs) && Possible(fs, Finish(id, threw))
    ensures Enabled(fs.gate, Event.Release(id)) && InStep(After(fs, Finish(id, threw), cap))
  {
    if fs.gate.waiters != [] { WaiterMovesOn(fs.gate.waiters, fs.gate.woken); }
  }

  lemma TurnKeepsInStep(fs: Files, turn: Turn, cap: nat)
    requires InStep(fs) && Inv(fs.gate, cap) && Possible(fs, turn)
    ensures Enabled(fs.gate, GateEvent(turn)) && InStep(After(fs, turn, cap)) && Inv(After(fs, turn, cap).gate, cap)
  {
    PossibleIsEnabled(fs, turn);
    StepKeepsInv(fs.gate, GateEvent(turn), cap);
    match turn {
      case Start(id) => StartKeepsInStep(fs, id, cap);
      case Continue => ContinueKeepsInStep(fs, cap);
      case Finish(id, threw) => FinishKeepsInStep(fs, id, threw, cap);
    }
  }

  /** The first woken waiter is nowhere else in the queue. */
  lemma WokenLeaves(g: Gate)
    requires NoRepeats(g.woken + g.waiters) && g.woken != []
    ensures forall id :: id in g.woken[1..] || id in g.waiters <==>
      (id in g.woken || id in g.waiters) && id != g.woken[0]
  {
    var all := g.woken + g.waiters;
    assert all == [g.woken[0]] + (g.woken[1..] + g.waiters);
    FirstIsNotRepeated(g.woken[0], g.woken[1..] + g.waiters);
    forall id ensures id in g.woken <==> id == g.woken[0] || id in g.woken[1..] {
      assert g.woken == [g.woken[0]] + g.woken[1..];
    }
    forall id | id in g.woken[1..] || id in g.waiters ensures id in g.woken[1..] + g.waiters {}
  }

  lemma WaiterMovesOn(waiters: seq<Id>, woken: seq<Id>)
    requires waiters != []
    ensures forall id :: id in woken + [waiters[0]] || id in waiters[1..] <==> id in woken || id in waiters
  {
    forall id ensures id in waiters <==> id == waiters[0] || id in waiters[1..] {
      assert waiters == [waiters[0]] + waiters[1..];
    }
  }

  // ---- runs ----

  ghost predicate Runs(fs: Files, turns: seq<Turn>, cap: nat)
    requires InStep(fs) && Inv(fs.gate, cap)
    decreases |turns|
  {
    turns == [] ||
    (Possible(fs, turns[0]) && (TurnKeepsInStep(fs, turns[0], cap); Runs(After(fs, turns[0], cap), turns[1..], cap)))
  }

  ghost function RunFiles(fs: Files, turns: seq<Turn>, cap: nat): Files
    requires InStep(fs) && Inv(fs.gate, cap) && Runs(fs, turns, cap)
    decreases |turns|
  {
    if turns == [] then fs
    else
      TurnKeepsInStep(fs, turns[0], cap);
      RunFiles(After(fs, turns[0], cap), turns[1..], cap)
  }

  function GateEvents(turns: seq<Turn>): seq<Event> {
    if turns == [] then [] else [GateEvent(turns[0])] + GateEvents(turns[1..])
  }

  function Times(events: seq<Event>, e: Event): nat {
    if events == [] then 0 else (if events[0] == e then 1 else 0) + Times(events[1..], e)
  }

  /** How often a file at this stage has asked for, and given back, its slot. */
  function Asked(fs: Files, id: Id): nat { if id in fs.stages then 1 else 0 }

  function GaveBack(fs: Files, id: Id): nat { if id in fs.stages && fs.stages[id].Over? then 1 else 0 }

  lemma TurnCounts(fs: Files, turn: Turn, cap: nat, id: Id)
    requires InStep(fs) && Possible(fs, turn) && Enabled(fs.gate, GateEvent(turn))
    ensures Asked(After(fs, turn, cap), id) == Asked(fs, id) + if turn == Start(id) then 1 else 0
    ensures GaveBack(After(fs, turn, cap), id) == GaveBack(fs, id) + if turn.Finish? && turn.id == id then 1 else 0
  {
    if turn.Continue? { assert fs.gate.woken[0] in fs.gate.woken; }
  }

  lemma {:induction false} RunFilesIsARun(fs: Files, turns: seq<Turn>, cap: nat)
    requires InStep(fs) && Inv(fs.gate, cap) && Runs(fs, turns, cap)
    ensures var r, events := RunFiles(fs, turns, cap), GateEvents(turns);
      InStep(r) && Legal(fs.gate, events, cap) && Run(fs.gate, events, cap) == r.gate
    decreases |turns|
  {
    if turns != [] {
      TurnKeepsInStep(fs, turns[0], cap);
      assert GateEvents(turns)[1..] == GateEvents(turns[1..]);
      RunFilesIsARun(After(fs, turns[0], cap), turns[1..], cap);
    }
  }

  lemma {:induction false} RunFilesCounts(fs: Files, turns: seq<Turn>, cap: nat, id: Id)
    requires InStep(fs) && Inv(fs.gate, cap) && Runs(fs, turns, cap)
    ensures var r, events := RunFiles(fs, turns, cap), GateEvents(turns);
      && Asked(r, id) == Asked(fs, id) + Times(events, Event.Acquire(id))
      && GaveBack(r, id) == GaveBack(fs, id) + Times(events, Event.Release(id))
    decreases |turns|
  {
    if turns != [] {
      TurnKeepsInStep(fs, turns[0], cap);
      TurnCounts(fs, turns[0], cap, id);
      assert GateEvents(turns)[1..] == GateEvents(turns[1..]);
      RunFilesCounts(After(fs, turns[0], cap), turns[1..], cap, id);
    }
  }

  predicate IsOver(fs: Files, id: Id) { id in fs.stages && fs.stages[id].Over? }

  lemma OverStays(fs: Files, turn: Turn, cap: nat, id: Id)
    requires InStep(fs) && Possible(fs, turn) && Enabled(fs.gate, GateEvent(turn)) && IsOver(fs, id)
    ensures !(turn.Finish? && turn.id == id)
    ensures IsOver(After(fs, turn, cap), id) && After(fs, turn, cap).stages[id] == fs.stages[id]
  {
    if turn.Continue? { assert fs.gate.woken[0] in fs.gate.woken; }
  }

  lemma {:induction false} OverStaysOver(fs: Files, turns: seq<Turn>, cap: nat, id: Id, threw: bool)
    requires InStep(fs) && Inv(fs.gate, cap) && Runs(fs, turns, cap) && IsOver(fs, id)
    ensures IsOver(RunFiles(fs, turns, cap), id) && RunFiles(fs, turns, cap).stages[id] == fs.stages[id]
    ensures Finish(id, threw) !in turns
    decreases |turns|
  {
    if turns != [] {
      assert turns == [turns[0]] + turns[1..];
      TurnKeepsInStep(fs, turns[0], cap);
      OverStays(fs, turns[0], cap, id);
      OverStaysOver(After(fs, turns[0], cap), turns[1..], cap, id, threw);
    }
  }

  lemma OverOnlyByFinish(fs: Files, turn: Turn, cap: nat, id: Id)
    requires InStep(fs) && Possible(fs, turn) && Enabled(fs.gate, GateEvent(turn)) && !IsOver(fs, id)
    ensures IsOver(After(fs, turn, cap), id) <==> turn.Finish? && turn.id == id
    ensures IsOver(After(fs, turn, cap), id) ==> After(fs, turn, cap).stages[id].threw == turn.threw
  {
    if turn.Continue? { assert fs.gate.woken[0] in fs.gate.woken; }
  }

  /** A file is over exactly when its body returned or threw, and as it did. */
  lemma {:induction false} OverAsItsBodyEnded(fs: Files, turns: seq<Turn>, cap: nat, id: Id, threw: bool)
    requires InStep(fs) && Inv(fs.gate, cap) && Runs(fs, turns, cap) && !IsOver(fs, id)
    ensures var r := RunFiles(fs, turns, cap);
      Finish(id, threw) in turns <==> IsOver(r, id) && r.stages[id].threw == threw
    decreases |turns|
  {
    if turns != [] {
      var next := After(fs, turns[0], cap);
      assert turns == [turns[0]] + turns[1..];
      TurnKeepsInStep(fs, turns[0], cap);
      OverOnlyByFinish(fs, turns[0], cap, id);
      if IsOver(next, id) {
        OverStaysOver(next, turns[1..], cap, id, threw);
      } else {
        OverAsItsBodyEnded(next, turns[1..], cap, id, threw);
      }
    }
  }

  /**
   * However files start, continue, return and throw: they drive the gate through a legal run, each asks for a
   * slot once, and gives it back once if it is over and not at all before. So when all are over, every acquire has
   * been matched by one release and the gate is idle again.
   */
  lemma EveryAcquireIsReleasedOnce(turns: seq<Turn>, cap: nat)
    requires Runs(NO_FILES, turns, cap)
    ensures var r, events := RunFiles(NO_FILES, turns, cap), GateEvents(turns);
      && Legal(IDLE, events, cap) && Run(IDLE, events, cap) == r.gate
      && (forall id :: id in r.stages ==> Times(events, Event.Acquire(id)) == 1)
      && (forall id :: id !in r.stages ==> Times(events, Event.Acquire(id)) == 0)
      && (forall id :: Times(events, Event.Release(id)) == if id in r.stages && r.stages[id].Over? then 1 else 0)
      && ((forall id :: id in r.stages ==> r.stages[id].Over?) ==>
        r.gate.active == 0 && r.gate.waiters == r.gate.woken == [])
  {
    var r, events := RunFiles(NO_FILES, turns, cap), GateEvents(turns);
    forall id
      ensures Times(events, Event.Acquire(id)) == Asked(r, id) && Times(events, Event.Release(id)) == GaveBack(r, id)
    {
      RunFilesCounts(NO_FILES, turns, cap, id);
    }
    RunFilesIsARun(NO_FILES, turns, cap);
    RunKeepsInv(IDLE, events, cap);
    if forall id :: id in r.stages ==> r.stages[id].Over? { AllOverIsIdle(r, cap); }
  }

  lemma AllOverIsIdle(fs: Files, cap: nat)
    requires InStep(fs) && Inv(fs.gate, cap) && forall id :: id in fs.stages ==> fs.stages[id].Over?
    ensures fs.gate.active == 0 && fs.gate.waiters == fs.gate.woken == []
  {
    assert fs.gate.holders == {};
    EmptyIff(fs.gate.waiters);
    EmptyIff(fs.gate.woken);
  }

  lemma EmptyIff(s: seq<Id>)
    ensures s == [] <==> forall id :: id !in s
  {
    if s != [] { assert s[0] in s; }
  }
}
