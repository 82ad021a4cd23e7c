/**
 * One file transfer and a folder of them (electron/services/SftpService.ts, `runTransfer`, `pause`,
 * `resume`, `cancel`; electron/services/transferOutcome.ts): stream events race with the user's
 * buttons, and a transfer settles once.
 */
module Transfer {
  import opened Basics

  datatype Event = Data(bytes: nat, emits: bool) | Finish | Close | StreamError(message: string) | Pause | Unpause
    | Cancel

  /** How the promise settles. */
  datatype Outcome = Done | Cancelled | Failed(message: string)

  datatype Status = PendingStatus | ActiveStatus | PausedStatus | DoneStatus | CancelledStatus | ErrorStatus

  /** `settled` lists every resolve and reject call made; `cleanups` counts deletions of the partial file. */
  datatype State = State(registered: bool, paused: bool, cancelled: bool, transferred: nat,
                         settled: seq<Outcome>, cleanups: nat, emitted: seq<Status>)

  const START := State(true, false, false, 0, [], 0, [PendingStatus])

  predicate Terminal(e: Event) { e.Finish? || e.Close? || e.StreamError? }

  function SettleCancelled(s: State): State {
    s.(settled := s.settled + [Cancelled], cleanups := s.cleanups + 1, emitted := s.emitted + [CancelledStatus])
  }

  function OnDone(s: State, total: nat): State {
    if !s.registered then s
    else
      var s1 := s.(registered := false);
      if s.cancelled then SettleCancelled(s1)
      else s1.(transferred := total, settled := s.settled + [Done], emitted := s.emitted + [DoneStatus])
  }

  function OnError(s: State, message: string): State {
    if !s.registered then s
    else
      var s1 := s.(registered := false);
      if s.cancelled then SettleCancelled(s1)
      else s1.(settled := s.settled + [Failed(message)], emitted := s.emitted + [ErrorStatus])
  }

  function Step(s: State, e: Event, total: nat): State {
    match e
    case Data(n, emits) =>
      s.(transferred := s.transferred + n, emitted := s.emitted + if emits then [ActiveStatus] else [])
    case Finish => OnDone(s, total)
    case Close => OnDone(s, total)
    case StreamError(message) => OnError(s, message)
    case Pause =>
      if s.registered && !s.paused then s.(paused := true, emitted := s.emitted + [PausedStatus]) else s
    case Unpause =>
      if s.registered && s.paused then s.(paused := false, emitted := s.emitted + [ActiveStatus]) else s
    case Cancel => if s.registered then s.(cancelled := true) else s
  }

  function Run(s: State, events: seq<Event>, total: nat): State
    decreases |events|
  {
    if events == [] then s else Run(Step(s, events[0], total), events[1..], total)
  }

  class ActiveTransfer {
    const total: nat
    var registered: bool
    var paused: bool
    var cancelled: bool
    var transferred: nat
    var settled: seq<Outcome>
    var cleanups: nat
    var emitted: seq<Status>

    constructor (total: nat)
      ensures this.total == total && Now() == START
    {
      this.total := total;
      registered, paused, cancelled, transferred := true, false, false, 0;
      settled, cleanups, emitted := [], 0, [PendingStatus];
    }

    function Now(): State
      reads this
    {
      State(registered, paused, cancelled, transferred, settled, cleanups, emitted)
    }

    method Emit(status: Status)
      modifies this`emitted
      ensures emitted == old(emitted) + [status]
    {
      emitted := emitted + [status];
    }

    method OnData(bytes: nat, emits: bool)
      modifies this
      ensures Now() == Step(old(Now()), Data(bytes, emits), total)
    {
      transferred := transferred + bytes;
      if emits { Emit(ActiveStatus); }
    }

    method SettleAsCancelled()
      modifies this
      ensures Now() == SettleCancelled(old(Now()))
    {
      cleanups := cleanups + 1;
      Emit(CancelledStatus);
      settled := settled + [Cancelled];
    }

    /** The handler shared by 'finish' and 'close'. */
    method OnFinishOrClose()
      modifies this
      ensures Now() == Step(old(Now()), Finish, total) == Step(old(Now()), Close, total)
    {
      if !registered { return; }
      registered := false;
      if cancelled {
        SettleAsCancelled();
      } else {
        transferred := total;
        Emit(DoneStatus);
        settled := settled + [Done];
      }
    }

    method OnStreamError(message: string)
      modifies this
      ensures Now() == Step(old(Now()), StreamError(message), total)
    {
      if !registered { return; }
      registered := false;
      if cancelled {
        SettleAsCancelled();
        return;
      }
      Emit(ErrorStatus);
      settled := settled + [Failed(message)];
    }

    method OnPause()
      modifies this
      ensures Now() == Step(old(Now()), Pause, total)
    {
      if !registered || paused { return; }
      paused := true;
      Emit(PausedStatus);
    }

    method OnResume()
      modifies this
      ensures Now() == Step(old(Now()), Unpause, total)
    {
      if !registered || !paused { return; }
      paused := false;
      Emit(ActiveStatus);
    }

    method OnCancel()
      modifies this
      ensures Now() == Step(old(Now()), Cancel, total)
    {
      if registered { cancelled := true; }
    }
  }

  // ---- what an event history means ----

  /** Index of the first terminal event, or |events|. */
  function FirstTerminal(events: seq<Event>): (r: nat)
    ensures r <= |events|
    ensures r < |events| ==> Terminal(events[r])
    ensures forall k :: 0 <= k < r ==> !Terminal(events[k])
  {
    if events == [] || Terminal(events[0]) then 0 else 1 + FirstTerminal(events[1..])
  }

  /** How a transfer with this history should have settled, if at all: cancelled iff cancel came first. */
  function Verdict(events: seq<Event>): Option<Outcome> {
    var t := FirstTerminal(events);
    if t == |events| then None
    else if Cancel in events[..t] then Some(Cancelled)
    else if events[t].StreamError? then Some(Failed(events[t].message))
    else Some(Done)
  }

  predicate Announces(s: Status) { s == DoneStatus || s == CancelledStatus || s == ErrorStatus }

  function Announcements(emitted: seq<Status>): seq<Status> {
    if emitted == [] then [] else (if Announces(emitted[0]) then [emitted[0]] else []) + Announcements(emitted[1..])
  }

  lemma {:induction false} AnnouncementsConcat(a: seq<Status>, b: seq<Status>)
    ensures Announcements(a + b) == Announcements(a) + Announcements(b)
    decreases |a|
  {
    if a == [] {
      assert a + b == b;
    } else {
      AnnouncementsConcat(a[1..], b);
      FirstOfConcat(a, b);
      PlusAssociates(if Announces(a[0]) then [a[0]] else [], Announcements(a[1..]), Announcements(b));
    }
  }

  lemma LateEvent(s: State, e: Event, total: nat)
    requires !s.registered
    ensures var r := Step(s, e, total);
            && !r.registered && r.settled == s.settled && r.cleanups == s.cleanups
            && Announcements(r.emitted) == Announcements(s.emitted)
  {
    AnnouncementsConcat(s.emitted, [ActiveStatus]);
    assert s.emitted + [] == s.emitted;
  }

  lemma {:induction false} NothingAfterSettling(s: State, events: seq<Event>, total: nat)
    requires !s.registered
    ensures var r := Run(s, events, total);
            r.settled == s.settled && r.cleanups == s.cleanups && Announcements(r.emitted) == Announcements(s.emitted)
    decreases |events|
  {
    if events != [] {
      LateEvent(s, events[0], total);
      NothingAfterSettling(Step(s, events[0], total), events[1..], total);
    }
  }

  function StatusOf(o: Outcome): Status {
    match o case Done => DoneStatus case Cancelled => CancelledStatus case Failed(_) => ErrorStatus
  }

  lemma TerminalSettles(s: State, e: Event, total: nat)
    requires s.registered && Terminal(e)
    ensures var o := if s.cancelled then Cancelled else if e.StreamError? then Failed(e.message) else Done;
            var r := Step(s, e, total);
            && !r.registered && r.settled == s.settled + [o]
            && r.cleanups == s.cleanups + (if o == Cancelled then 1 else 0)
            && Announcements(r.emitted) == Announcements(s.emitted) + [StatusOf(o)]
  {
    var o := if s.cancelled then Cancelled else if e.StreamError? then Failed(e.message) else Done;
    AnnouncementsConcat(s.emitted, [StatusOf(o)]);
    assert [StatusOf(o)][1..] == [];
  }

  lemma EarlyEvent(s: State, e: Event, total: nat)
    requires s.registered && !Terminal(e)
    ensures var r := Step(s, e, total);
            && r.registered && r.settled == s.settled && r.cleanups == s.cleanups
            && r.cancelled == (s.cancelled || e.Cancel?)
            && Announcements(r.emitted) == Announcements(s.emitted)
  {
    AnnouncementsConcat(s.emitted, [ActiveStatus]);
    AnnouncementsConcat(s.emitted, [PausedStatus]);
    assert s.emitted + [] == s.emitted;
  }

  lemma {:induction false} SettlesFrom(s: State, events: seq<Event>, total: nat)
    requires s.registered
    ensures var v := if s.cancelled && FirstTerminal(events) < |events| then Some(Cancelled) else Verdict(events);
            var r := Run(s, events, total);
            && r.settled == s.settled + (if v.Some? then [v.value] else [])
            && r.cleanups == s.cleanups + (if v == Some(Cancelled) then 1 else 0)
            && Announcements(r.emitted) == Announcements(s.emitted) + (if v.Some? then [StatusOf(v.value)] else [])
    decreases |events|
  {
    if events != [] {
      var e, rest := events[0], events[1..];
      var s1 := Step(s, e, total);
      var t := FirstTerminal(events);
      if Terminal(e) {
        TerminalSettles(s, e, total);
        NothingAfterSettling(s1, rest, total);
        assert events[..0] == [];
      } else {
        EarlyEvent(s, e, total);
        SettlesFrom(s1, rest, total);
        assert events[..t] == [e] + rest[..t - 1];
      }
    }
  }

  /**
   * Whatever the order of events, the promise settles exactly once, at the first terminal event, as
   * the history demands; one final status is announced, and the partial file is dropped only for a
   * cancellation.
   */
  lemma SettlesExactlyOnce(events: seq<Event>, total: nat)
    ensures var r, v := Run(START, events, total), Verdict(events);
            && r.settled == (if v.Some? then [v.value] else [])
            && r.cleanups == (if v == Some(Cancelled) then 1 else 0)
            && Announcements(r.emitted) == (if v.Some? then [StatusOf(v.value)] else [])
  {
    SettlesFrom(START, events, total);
    assert Announcements(START.emitted) == [] by { assert START.emitted[1..] == []; }
  }

  // ---- the buttons ----

  /** The last of the two buttons pressed was pause. */
  predicate LeftPaused(events: seq<Event>) {
    events != [] &&
    var last := events[|events| - 1];
    last.Pause? || (!last.Unpause? && LeftPaused(events[..|events| - 1]))
  }

  function Statuses(emitted: seq<Status>, status: Status): nat {
    if emitted == [] then 0 else (if emitted[0] == status then 1 else 0) + Statuses(emitted[1..], status)
  }

  lemma {:induction false} StatusesConcat(a: seq<Status>, b: seq<Status>, status: Status)
    ensures Statuses(a + b, status) == Statuses(a, status) + Statuses(b, status)
    decreases |a|
  {
    if a == [] {
      assert a + b == b;
    } else {
      FirstOfConcat(a, b);
      StatusesConcat(a[1..], b, status);
    }
  }

  lemma OneStatus(s: Status, status: Status)
    ensures Statuses([s], status) == if s == status then 1 else 0
  {
    assert [s][1..] == [];
  }

  /** How many of the events announce this by a button that changes something, or by data that is reported. */
  function Announced(events: seq<Event>, status: Status): nat {
    if events == [] then 0
    else
      var rest, last := events[..|events| - 1], events[|events| - 1];
      var paused := LeftPaused(rest);
      Announced(rest, status) +
      if status == PausedStatus then if last.Pause? && !paused then 1 else 0
      else if status == ActiveStatus then if (last.Unpause? && paused) || (last.Data? && last.emits) then 1 else 0
      else 0
  }

  /**
   * While a transfer runs it is paused exactly when pause was the last button, and each press that changes that is
   * announced once, as is each report of data, and nothing else but that it is pending.
   */
  lemma {:induction false} ButtonsTakeEffect(events: seq<Event>, total: nat, status: Status)
    requires forall k :: 0 <= k < |events| ==> !Terminal(events[k])
    ensures var r := Run(START, events, total);
      && r.registered && (r.paused <==> LeftPaused(events))
      && Statuses(r.emitted, status) == Announced(events, status) + (if status == PendingStatus then 1 else 0)
    decreases |events|
  {
    if events == [] {
      OneStatus(PendingStatus, status);
    } else {
      var rest, last := events[..|events| - 1], events[|events| - 1];
      ButtonsTakeEffect(rest, total, status);
      RunSnoc(START, rest, last, total);
      assert events == rest + [last];
      StepAnnounces(Run(START, rest, total), last, total, status);
    }
  }

  lemma StepAnnounces(s: State, e: Event, total: nat, status: Status)
    requires s.registered && !Terminal(e)
    ensures var r := Step(s, e, total);
      && r.registered && (r.paused <==> e.Pause? || (!e.Unpause? && s.paused))
      && Statuses(r.emitted, status) == Statuses(s.emitted, status) +
        if status == PausedStatus then if e.Pause? && !s.paused then 1 else 0
        else if status == ActiveStatus then if (e.Unpause? && s.paused) || (e.Data? && e.emits) then 1 else 0
        else 0
  {
    StatusesConcat(s.emitted, [ActiveStatus], status);
    StatusesConcat(s.emitted, [PausedStatus], status);
    OneStatus(ActiveStatus, status);
    OneStatus(PausedStatus, status);
    assert s.emitted + [] == s.emitted;
  }

  /** Once it has settled, no button does anything. */
  lemma SettledIgnoresButtons(s: State, e: Event, total: nat)
    requires !s.registered && !e.Data?
    ensures Step(s, e, total) == s
  {}

  // ---- what was really written ----

  /** The bytes that went through the stream. */
  function Delivered(events: seq<Event>): nat {
    if events == [] then 0 else (if events[0].Data? then events[0].bytes else 0) + Delivered(events[1..])
  }

  lemma {:induction false} DeliveredSnoc(events: seq<Event>, e: Event)
    ensures Delivered(events + [e]) == Delivered(events) + if e.Data? then e.bytes else 0
    decreases |events|
  {
    if events == [] {
      assert [e][1..] == [];
    } else {
      DeliveredSnoc(events[1..], e);
      FirstOfConcat(events, [e]);
    }
  }

  lemma {:induction false} RunSnoc(s: State, events: seq<Event>, e: Event, total: nat)
    ensures Run(s, events + [e], total) == Step(Run(s, events, total), e, total)
    decreases |events|
  {
    if events == [] {
      assert [e][1..] == [];
    } else {
      RunSnoc(Step(s, events[0], total), events[1..], e, total);
      FirstOfConcat(events, [e]);
    }
  }

  lemma {:induction false} RunningCounts(s: State, events: seq<Event>, total: nat)
    requires s.registered && forall k :: 0 <= k < |events| ==> !Terminal(events[k])
    ensures var r := Run(s, events, total);
      && r.registered && r.transferred == s.transferred + Delivered(events)
      && r.cancelled == (s.cancelled || Cancel in events)
    decreases |events|
  {
    if events != [] {
      EarlyEvent(s, events[0], total);
      RunningCounts(Step(s, events[0], total), events[1..], total);
      assert events == [events[0]] + events[1..];
    }
  }

  /**
   * What a settled transfer reports is what went through, exactly unless it settled as done short of the total: it
   * then reports the total all the same. The handler of 'close' does not ask whether 'finish' came before it.
   */
  lemma ReportIsTrueUnlessDoneShort(events: seq<Event>, total: nat)
    requires FirstTerminal(events) < |events|
    ensures var upTo := events[..FirstTerminal(events) + 1];
      var r := Run(START, upTo, total);
      && (Verdict(events) == Some(Done) ==> r.transferred == total)
      && (r.transferred == Delivered(upTo) <==> Verdict(events) != Some(Done) || Delivered(upTo) == total)
  {
    var t := FirstTerminal(events);
    assert events[..t + 1] == events[..t] + [events[t]];
    RunningCounts(START, events[..t], total);
    RunSnoc(START, events[..t], events[t], total);
    DeliveredSnoc(events[..t], events[t]);
  }

  /** A stream that closes with nothing written: the transfer is done and says all of it went through. */
  lemma ClosedShortCountsAsDone(total: nat)
    ensures var r := Run(START, [Close], total);
      r.settled == [Done] && r.transferred == total && Delivered([Close]) == 0
  {
    assert [Close][1..] == [];
  }

  // ---- folders ----

  datatype Batch = Batch(completed: nat, cancelled: nat, failures: seq<string>)

  function Count(results: seq<Outcome>, o: Outcome): nat {
    if results == [] then 0 else (if results[0] == o then 1 else 0) + Count(results[1..], o)
  }

  function Failures(results: seq<Outcome>): seq<string> {
    if results == [] then []
    else (if results[0].Failed? then [results[0].message] else []) + Failures(results[1..])
  }

  lemma {:induction false} Snoc(results: seq<Outcome>, r: Outcome)
    ensures Count(results + [r], Done) == Count(results, Done) + if r == Done then 1 else 0
    ensures Count(results + [r], Cancelled) == Count(results, Cancelled) + if r == Cancelled then 1 else 0
    ensures Failures(results + [r]) == Failures(results) + if r.Failed? then [r.message] else []
    decreases |results|
  {
    if results == [] {
      assert [r][1..] == [];
    } else {
      assert (results + [r])[1..] == results[1..] + [r];
      Snoc(results[1..], r);
    }
  }

  /** Every file is accounted for once: completed, cancelled or failed. */
  method Summarize(results: seq<Outcome>) returns (out: Batch)
    ensures out == Batch(Count(results, Done), Count(results, Cancelled), Failures(results))
    ensures out.completed + out.cancelled + |out.failures| == |results|
  {
    out := Batch(0, 0, []);
    for i := 0 to |results|
      invariant out == Batch(Count(results[..i], Done), Count(results[..i], Cancelled), Failures(results[..i]))
      invariant out.completed + out.cancelled + |out.failures| == i
    {
      assert results[..i + 1] == results[..i] + [results[i]];
      Snoc(results[..i], results[i]);
      match results[i]
      case Done => out := out.(completed := out.completed + 1);
      case Cancelled => out := out.(cancelled := out.cancelled + 1);
      case Failed(message) => out := out.(failures := out.failures + [message]);
    }
    assert results[..|results|] == results;
  }

  lemma {:induction false} FailuresAreTheFailed(results: seq<Outcome>)
    ensures Failures(results) != [] <==> exists i :: 0 <= i < |results| && results[i].Failed?
    ensures Failures(results) != [] ==> exists i :: 0 <= i < |results| && results[i] == Failed(Failures(results)[0])
                                                    && forall j :: 0 <= j < i ==> !results[j].Failed?
    decreases |results|
  {
    if results != [] {
      FailuresAreTheFailed(results[1..]);
      if results[0].Failed? {
        assert results[0] == Failed(Failures(results)[0]);
      } else if Failures(results) != [] {
        var i :| 0 <= i < |results[1..]| && results[1..][i] == Failed(Failures(results[1..])[0])
                 && forall j :: 0 <= j < i ==> !results[1..][j].Failed?;
        assert results[i + 1] == Failed(Failures(results)[0]);
        assert forall j :: 0 < j < i + 1 ==> results[j] == results[1..][j - 1];
      } else {
        assert forall j :: 0 < j < |results| ==> results[j] == results[1..][j - 1];
      }
    }
  }

  /** One file of a folder: it may fail before its stream starts (no connection, no `stat`), else its events decide. */
  datatype FileRun = NeverStarted(message: string) | Streamed(events: seq<Event>)

  predicate Ended(run: FileRun) { run.Streamed? ==> Verdict(run.events).Some? }

  function OutcomeOf(run: FileRun): Outcome
    requires Ended(run)
  {
    match run
    case NeverStarted(message) => Failed(message)
    case Streamed(events) => Verdict(events).value
  }

  /** What each file came to, in order. */
  function Outcomes(runs: seq<FileRun>): (r: seq<Outcome>)
    requires forall i :: 0 <= i < |runs| ==> Ended(runs[i])
    ensures |r| == |runs| && forall i :: 0 <= i < |r| ==> r[i] == OutcomeOf(runs[i])
  {
    seq(|runs|, i requires 0 <= i < |runs| => OutcomeOf(runs[i]))
  }

  /** It never started, or its stream failed before the user cancelled it. */
  predicate TrulyFailed(run: FileRun)
    requires Ended(run)
  {
    match run
    case NeverStarted(_) => true
    case Streamed(events) =>
      var t := FirstTerminal(events);
      events[t].StreamError? && Cancel !in events[..t]
  }

  /** A folder fails exactly when some file truly failed; cancelling files never fails it. */
  lemma FolderFailsIffAFileTrulyFailed(runs: seq<FileRun>)
    requires forall i :: 0 <= i < |runs| ==> Ended(runs[i])
    ensures Failures(Outcomes(runs)) != [] <==> exists i :: 0 <= i < |runs| && TrulyFailed(runs[i])
  {
    var results := Outcomes(runs);
    FailuresAreTheFailed(results);
    forall i | 0 <= i < |runs| ensures results[i].Failed? <==> TrulyFailed(runs[i]) {}
  }
}
