/**
 * The transfer gate of SftpService (electron/services/SftpService.ts, `acquire` and `release`): at
 * most `cap` transfers at once, the rest queue. A woken waiter takes its slot only when its
 * continuation runs, so "woken" is a state of its own.
 */
module TransferGate {
  import opened Basics

  type Id = nat

  /**
   * `waited` and `resumed` record who queued and who came back, in order; `overtakes` counts arrivals let in past a
   * woken waiter.
   */
  datatype Gate = Gate(active: int, waiters: seq<Id>, woken: seq<Id>, holders: set<Id>,
                       waited: seq<Id>, resumed: seq<Id>, overtakes: nat)

  datatype Event = Acquire(id: Id) | Release(id: Id) | Resume

  const IDLE := Gate(0, [], [], {}, [], [], 0)

  /** A transfer asks once, releases what it holds, and a continuation runs only if it was woken. */
  predicate Enabled(g: Gate, e: Event) {
    match e
    case Acquire(id) => id !in g.holders && id !in g.waiters && id !in g.woken
    case Release(id) => id in g.holders
    case Resume => g.woken != []
  }

  function Step(g: Gate, e: Event, cap: nat): Gate
    requires Enabled(g, e)
  {
    match e
    case Acquire(id) =>
      if g.active < cap then
        var overtaken := if g.woken != [] then 1 else 0;
        g.(active := g.active + 1, holders := g.holders + {id}, overtakes := g.overtakes + overtaken)
      else g.(waiters := g.waiters + [id], waited := g.waited + [id])
    case Release(id) =>
      var g1 := g.(active := g.active - 1, holders := g.holders - {id});
      if g.waiters == [] then g1 else g1.(waiters := g.waiters[1..], woken := g.woken + [g.waiters[0]])
    case Resume =>
      g.(active := g.active + 1, woken := g.woken[1..],
         holders := g.holders + {g.woken[0]}, resumed := g.resumed + [g.woken[0]])
  }

  predicate Legal(g: Gate, events: seq<Event>, cap: nat)
    decreases |events|
  {
    events == [] || (Enabled(g, events[0]) && Legal(Step(g, events[0], cap), events[1..], cap))
  }

  function Run(g: Gate, events: seq<Event>, cap: nat): Gate
    requires Legal(g, events, cap)
    decreases |events|
  {
    if events == [] then g else Run(Step(g, events[0], cap), events[1..], cap)
  }

  class SlotGate {
    const cap: nat
    var active: int
    var waiters: seq<Id>
    var woken: seq<Id>
    ghost var holders: set<Id>
    ghost var waited: seq<Id>
    ghost var resumed: seq<Id>
    ghost var overtakes: nat

    constructor (cap: nat)
      ensures this.cap == cap && State() == IDLE
    {
      this.cap := cap;
      active, waiters, woken := 0, [], [];
      holders, waited, resumed, overtakes := {}, [], [], 0;
    }

    ghost function State(): Gate
      reads this
    {
      Gate(active, waiters, woken, holders, waited, resumed, overtakes)
    }

    /** The synchronous part of `acquire`: either the slot is taken, or the caller is parked. */
    method Acquire(id: Id) returns (entered: bool)
      requires Enabled(State(), Event.Acquire(id))
      modifies this
      ensures State() == Step(old(State()), Event.Acquire(id), cap)
      ensures entered <==> old(active) < cap
    {
      if active < cap {
        active := active + 1;
        holders := holders + {id};
        overtakes := overtakes + if woken != [] then 1 else 0;
        return true;
      }
      waiters := waiters + [id];
      waited := waited + [id];
      return false;
    }

    method Release(id: Id)
      requires Enabled(State(), Event.Release(id))
      modifies this
      ensures State() == Step(old(State()), Event.Release(id), cap)
    {
      active := active - 1;
      holders := holders - {id};
      if waiters != [] {
        woken := woken + [waiters[0]];
        waiters := waiters[1..];
      }
    }

    /** The rest of `acquire` for the waiter whose promise resolved first. */
    method Resume() returns (id: Id)
      requires Enabled(State(), Event.Resume)
      modifies this
      ensures State() == Step(old(State()), Event.Resume, cap) && id == old(woken)[0]
    {
      id := woken[0];
      woken := woken[1..];
      active := active + 1;
      holders := holders + {id};
      resumed := resumed + [id];
    }
  }

  /** What every interleaving keeps. */
  ghost predicate Inv(g: Gate, cap: nat) {
    && g.active == |g.holders|
    && (g.waiters != [] ==> g.active + |g.woken| >= cap)
    && g.waited == g.resumed + g.woken + g.waiters
    && NoRepeats(g.woken + g.waiters)
    && (forall id :: id in g.holders ==> id !in g.woken && id !in g.waiters)
    && g.active + |g.woken| <= cap + g.overtakes
  }

  lemma AcquireKeepsInv(g: Gate, id: Id, cap: nat)
    requires Inv(g, cap) && Enabled(g, Event.Acquire(id))
    ensures Inv(Step(g, Event.Acquire(id), cap), cap)
  {
    var g' := Step(g, Event.Acquire(id), cap);
    if g.active >= cap {
      assert g'.woken + g'.waiters == (g.woken + g.waiters) + [id];
    }
  }

  lemma ReleaseKeepsInv(g: Gate, id: Id, cap: nat)
    requires Inv(g, cap) && Enabled(g, Event.Release(id))
    ensures Inv(Step(g, Event.Release(id), cap), cap)
  {
    var g' := Step(g, Event.Release(id), cap);
    assert g'.woken + g'.waiters == g.woken + g.waiters;
    assert g'.resumed + g'.woken + g'.waiters == g.resumed + g.woken + g.waiters;
  }

  lemma FirstIsNotRepeated(h: Id, t: seq<Id>)
    requires NoRepeats([h] + t)
    ensures NoRepeats(t) && h !in t
  {
    var all := [h] + t;
    forall i | 0 <= i < |t| ensures t[i] != h { assert all[i + 1] == t[i] && all[0] != all[i + 1]; }
    forall i, j | 0 <= i < j < |t| ensures t[i] != t[j] { assert all[i + 1] != all[j + 1]; }
  }

  lemma ResumeKeepsInv(g: Gate, cap: nat)
    requires Inv(g, cap) && Enabled(g, Event.Resume)
    ensures Inv(Step(g, Event.Resume, cap), cap)
  {
    var g' := Step(g, Event.Resume, cap);
    var queue := g'.woken + g'.waiters;
    assert g.woken + g.waiters == [g.woken[0]] + queue;
    FirstIsNotRepeated(g.woken[0], queue);
    assert forall id :: id in g'.woken || id in g'.waiters ==> id in queue;
    assert forall id :: id in g'.woken ==> id in g.woken;
    assert g'.resumed + g'.woken + g'.waiters == g.resumed + g.woken + g.waiters;
  }

  lemma StepKeepsInv(g: Gate, e: Event, cap: nat)
    requires Inv(g, cap) && Enabled(g, e)
    ensures Inv(Step(g, e, cap), cap)
  {
    match e
    case Acquire(id) => AcquireKeepsInv(g, id, cap);
    case Release(id) => ReleaseKeepsInv(g, id, cap);
    case Resume => ResumeKeepsInv(g, cap);
  }

  /** Over every interleaving: no lost wakeup, first come first served, one slot per holder. */
  lemma {:induction false} RunKeepsInv(g: Gate, events: seq<Event>, cap: nat)
    requires Inv(g, cap) && Legal(g, events, cap)
    ensures Inv(Run(g, events, cap), cap)
    decreases |events|
  {
    if events != [] {
      StepKeepsInv(g, events[0], cap);
      RunKeepsInv(Step(g, events[0], cap), events[1..], cap);
    }
  }

  /** Once every holder has released and every woken waiter has run, nobody is left behind. */
  lemma NobodyIsStranded(events: seq<Event>, cap: nat)
    requires cap >= 1 && Legal(IDLE, events, cap)
    ensures var g := Run(IDLE, events, cap);
            g.holders == {} && g.woken == [] ==> g.active == 0 && g.waiters == [] && g.resumed == g.waited
  {
    RunKeepsInv(IDLE, events, cap);
  }

  /** No arrival is let in while a woken waiter has yet to take its slot. */
  predicate Orderly(g: Gate, events: seq<Event>, cap: nat)
    requires Legal(g, events, cap)
    decreases |events|
  {
    events == [] ||
    (var g1 := Step(g, events[0], cap);
     (events[0].Acquire? ==> g.woken == []) && Orderly(g1, events[1..], cap))
  }

  lemma {:induction false} OrderlyNeverOvertakes(g: Gate, events: seq<Event>, cap: nat)
    requires Legal(g, events, cap) && Orderly(g, events, cap)
    ensures Run(g, events, cap).overtakes == g.overtakes
    decreases |events|
  {
    if events != [] { OrderlyNeverOvertakes(Step(g, events[0], cap), events[1..], cap); }
  }

  /** If woken waiters run before anything new arrives, the cap is never exceeded. */
  lemma CapHoldsWhenOrderly(events: seq<Event>, cap: nat)
    requires Legal(IDLE, events, cap) && Orderly(IDLE, events, cap)
    ensures Run(IDLE, events, cap).active <= cap
  {
    RunKeepsInv(IDLE, events, cap);
    OrderlyNeverOvertakes(IDLE, events, cap);
  }

  /** Slots taken, plus those that will be as soon as the woken waiters run. */
  function Demand(g: Gate): int { g.active + |g.woken| }

  function Resumes(n: nat): seq<Event> {
    if n == 0 then [] else [Event.Resume] + Resumes(n - 1)
  }

  /** Nothing stops the woken waiters from running next, and then demand is what is in use. */
  lemma {:induction false} WokenCanRun(g: Gate, cap: nat)
    ensures Legal(g, Resumes(|g.woken|), cap) && Run(g, Resumes(|g.woken|), cap).active == Demand(g)
    decreases |g.woken|
  {
    if g.woken != [] {
      var events := Resumes(|g.woken|);
      assert events[1..] == Resumes(|g.woken| - 1);
      WokenCanRun(Step(g, Event.Resume, cap), cap);
    }
  }

  /** Demand stays within the cap all along. */
  predicate KeepsRoom(g: Gate, events: seq<Event>, cap: nat)
    requires Legal(g, events, cap)
    decreases |events|
  {
    Demand(g) <= cap && (events == [] || KeepsRoom(Step(g, events[0], cap), events[1..], cap))
  }

  /** No arrival is let in when the woken waiters already speak for every free slot. */
  predicate NeverCrowds(g: Gate, events: seq<Event>, cap: nat)
    requires Legal(g, events, cap)
    decreases |events|
  {
    events == [] ||
    (var g1 := Step(g, events[0], cap);
     (events[0].Acquire? && g.active < cap ==> Demand(g) < cap) && NeverCrowds(g1, events[1..], cap))
  }

  lemma {:induction false} RoomIffNeverCrowded(g: Gate, events: seq<Event>, cap: nat)
    requires Legal(g, events, cap) && Demand(g) <= cap
    ensures KeepsRoom(g, events, cap) <==> NeverCrowds(g, events, cap)
    decreases |events|
  {
    if events != [] {
      var g1 := Step(g, events[0], cap);
      if Demand(g1) <= cap { RoomIffNeverCrowded(g1, events[1..], cap); }
    }
  }

  /** What `active` comes to if all woken waiters run next, before anything else happens. */
  function ActiveOnceTheWokenRan(g: Gate, cap: nat): int {
    WokenCanRun(g, cap);
    Run(g, Resumes(|g.woken|), cap).active
  }

  /** At every point of the run `active` is within the cap, and stays so when the woken waiters run next. */
  predicate CapHoldsThroughout(g: Gate, events: seq<Event>, cap: nat)
    requires Legal(g, events, cap)
    decreases |events|
  {
    && g.active <= cap && ActiveOnceTheWokenRan(g, cap) <= cap
    && (events == [] || CapHoldsThroughout(Step(g, events[0], cap), events[1..], cap))
  }

  lemma {:induction false} RoomIsTheCap(g: Gate, events: seq<Event>, cap: nat)
    requires Legal(g, events, cap)
    ensures CapHoldsThroughout(g, events, cap) <==> KeepsRoom(g, events, cap)
    decreases |events|
  {
    WokenCanRun(g, cap);
    if events != [] { RoomIsTheCap(Step(g, events[0], cap), events[1..], cap); }
  }

  /**
   * For every run: `active` never exceeds the cap, wherever the woken waiters may run, exactly when no arrival is
   * let in while the slots taken and the woken waiters together reach the cap.
   */
  lemma CapHoldsIffNeverCrowded(events: seq<Event>, cap: nat)
    requires Legal(IDLE, events, cap)
    ensures CapHoldsThroughout(IDLE, events, cap) <==> NeverCrowds(IDLE, events, cap)
  {
    RoomIsTheCap(IDLE, events, cap);
    RoomIffNeverCrowded(IDLE, events, cap);
  }

  /** Otherwise it can be: with one slot, an arrival between a release and the wakeup makes two. */
  lemma CapCanBeExceeded()
    ensures var events := [Event.Acquire(0), Event.Acquire(1), Event.Release(0), Event.Acquire(2), Event.Resume];
            Legal(IDLE, events, 1) && Run(IDLE, events, 1).active == 2
  {
    var e := [Event.Acquire(0), Event.Acquire(1), Event.Release(0), Event.Acquire(2), Event.Resume];
    var g1 := Step(IDLE, e[0], 1);
    var g2 := Step(g1, e[1], 1);
    var g3 := Step(g2, e[2], 1);
    var g4 := Step(g3, e[3], 1);
    var g5 := Step(g4, e[4], 1);
    assert e[1..][1..] == e[2..] && e[2..][1..] == e[3..] && e[3..][1..] == e[4..] && e[4..][1..] == [];
    assert Legal(g5, [], 1) && Run(g5, [], 1) == g5;
    assert Legal(g4, e[4..], 1) && Run(g4, e[4..], 1) == g5;
    assert Legal(g3, e[3..], 1) && Run(g3, e[3..], 1) == g5;
    assert Legal(g2, e[2..], 1) && Run(g2, e[2..], 1) == g5;
    assert Legal(g1, e[1..], 1) && Run(g1, e[1..], 1) == g5;
  }
}
