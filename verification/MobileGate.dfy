/**
 * Which saved sessions a phone may open (electron/services/mobileGate.ts): a session is openable only
 * when every hop of its jump-host chain is, and jump hosts may form cycles.
 */
module MobileGate {
  import opened Basics

  datatype Reason = NoPassword | NoKey | HostKeyUnknown | NotATerminal | VaultLocked

  datatype Session = Session(protocol: string, authType: Option<string>, host: Option<string>, port: Option<nat>,
                             hasPassword: bool, sshKey: Option<nat>, jumpHost: Option<nat>)

  datatype Verdict = Ok | Blocked(reason: Reason)

  /** The sessions by id, and what the desktop knows when the question is asked. */
  datatype Desk = Desk(sessions: map<nat, Session>, knownHost: (string, nat) -> bool, strictness: string,
    vaultLocked: bool)

  function OrElse<T>(x: Option<T>, default: T): T {
    if x.Some? then x.value else default
  }

  function GateSession(s: Session, desk: Desk, seen: set<nat>): Verdict
    decreases desk.sessions.Keys - seen
  {
    if s.protocol == "rdp" || s.protocol == "vnc" then Blocked(NotATerminal)
    else if desk.vaultLocked && (s.hasPassword || s.sshKey.Some?) then Blocked(VaultLocked)
    else if s.protocol != "ssh" then Ok
    else if s.authType == Some("password") && !s.hasPassword then Blocked(NoPassword)
    else if s.authType == Some("key") && (s.sshKey.None? || s.sshKey.value == 0) then Blocked(NoKey)
    else if desk.strictness != "auto-accept" && !desk.knownHost(OrElse(s.host, ""), OrElse(s.port, 22)) then
      Blocked(HostKeyUnknown)
    else if s.jumpHost.Some? && s.jumpHost.value !in seen && s.jumpHost.value in desk.sessions then
      var id := s.jumpHost.value;
      assert id in desk.sessions.Keys - seen;
      GateSession(desk.sessions[id], desk, seen + {id})
    else Ok
  }

  // ---- the chain, walked without remembering anything ----

  /** The jump host of an SSH session, if the id leads anywhere. */
  function Next(s: Session, desk: Desk): Option<Session> {
    if s.protocol == "ssh" && s.jumpHost.Some? && s.jumpHost.value in desk.sessions
    then Some(desk.sessions[s.jumpHost.value])
    else None
  }

  /** The k-th hop; on a cycle there is one for every k. */
  function Hop(s: Session, desk: Desk, k: nat): Option<Session> {
    if k == 0 then Some(s)
    else
      var h := Hop(s, desk, k - 1);
      if h.Some? then Next(h.value, desk) else None
  }

  predicate IsDesktop(s: Session) { s.protocol == "rdp" || s.protocol == "vnc" }

  predicate NeedsVault(s: Session, desk: Desk) { desk.vaultLocked && (s.hasPassword || s.sshKey.Some?) }

  predicate LacksPassword(s: Session) { s.authType == Some("password") && !s.hasPassword }

  predicate LacksKey(s: Session) { s.authType == Some("key") && !(s.sshKey.Some? && s.sshKey.value > 0) }

  predicate Trusted(s: Session, desk: Desk) {
    desk.strictness == "auto-accept" || desk.knownHost(OrElse(s.host, ""), OrElse(s.port, 22))
  }

  /** What a session would ask that a phone cannot answer, its own jump host aside; the most basic obstacle first. */
  function Obstacle(s: Session, desk: Desk): (o: Option<Reason>)
    ensures o == Some(NotATerminal) <==> IsDesktop(s)
    ensures o == Some(VaultLocked) <==> !IsDesktop(s) && NeedsVault(s, desk)
    ensures o == Some(NoPassword) <==> s.protocol == "ssh" && !NeedsVault(s, desk) && LacksPassword(s)
    ensures o == Some(NoKey) <==> s.protocol == "ssh" && !NeedsVault(s, desk) && LacksKey(s)
    ensures o == Some(HostKeyUnknown) <==>
              s.protocol == "ssh" && !NeedsVault(s, desk) && !LacksPassword(s) && !LacksKey(s) && !Trusted(s, desk)
  {
    var v := GateSession(s.(jumpHost := None), desk, {});
    if v.Blocked? then Some(v.reason) else None
  }

  predicate Clear(s: Session, desk: Desk, k: nat) {
    var h := Hop(s, desk, k);
    h.Some? ==> Obstacle(h.value, desk).None?
  }

  /** A hop seen before leads only to hops seen before. */
  lemma {:induction false} CyclesAddNothing(s: Session, desk: Desk, m: nat, n: nat, k: nat)
    requires m <= n && Hop(s, desk, n + 1) == Hop(s, desk, m)
    requires forall j: nat :: j <= n ==> Clear(s, desk, j)
    ensures Clear(s, desk, k)
    ensures k > n ==> exists j: nat :: m <= j <= n && Hop(s, desk, k) == Hop(s, desk, j)
    decreases k
  {
    if k > n + 1 {
      CyclesAddNothing(s, desk, m, n, k - 1);
      var j: nat :| m <= j <= n && Hop(s, desk, k - 1) == Hop(s, desk, j);
      assert Hop(s, desk, k) == Hop(s, desk, j + 1);
      if j < n { assert Clear(s, desk, j + 1); } else { assert Clear(s, desk, m); }
    } else if k == n + 1 {
      assert Clear(s, desk, m);
    }
  }

  lemma {:induction false} EndedChainStaysEnded(s: Session, desk: Desk, n: nat, k: nat)
    requires Hop(s, desk, n).None? && n <= k
    ensures Hop(s, desk, k).None?
    decreases k
  {
    if n < k { EndedChainStaysEnded(s, desk, n, k - 1); }
  }

  /** The verdict a walk over the whole chain gives: the first obstacle, if there is one. */
  ghost predicate ChainVerdict(s: Session, desk: Desk, v: Verdict) {
    if v.Ok? then forall k: nat :: Clear(s, desk, k)
    else exists k: nat :: Hop(s, desk, k).Some? && Obstacle(Hop(s, desk, k).value, desk) == Some(v.reason)
                          && forall j: nat :: j < k ==> Clear(s, desk, j)
  }

  /** The session with this id is one of the first n + 1 hops. */
  ghost predicate Passed(s: Session, desk: Desk, n: nat, id: nat) {
    id in desk.sessions && exists m: nat :: m <= n && Hop(s, desk, m) == Some(desk.sessions[id])
  }

  lemma PassedLater(s: Session, desk: Desk, n: nat, id: nat)
    requires Passed(s, desk, n, id) || (id in desk.sessions && Hop(s, desk, n + 1) == Some(desk.sessions[id]))
    ensures Passed(s, desk, n + 1, id)
  {
    if Passed(s, desk, n, id) {
      var m: nat :| m <= n && Hop(s, desk, m) == Some(desk.sessions[id]);
      assert m <= n + 1;
    }
  }

  /** Invariant of the recursion: `seen` holds ids of hops already passed. */
  lemma {:induction false} GateFollowsChain(s: Session, desk: Desk, n: nat, seen: set<nat>)
    requires Hop(s, desk, n).Some?
    requires forall j: nat :: j < n ==> Clear(s, desk, j)
    requires forall id :: id in seen ==> Passed(s, desk, n, id)
    ensures ChainVerdict(s, desk, GateSession(Hop(s, desk, n).value, desk, seen))
    decreases desk.sessions.Keys - seen
  {
    var h := Hop(s, desk, n).value;
    if Obstacle(h, desk).Some? {
      assert GateSession(h, desk, seen) == Blocked(Obstacle(h, desk).value);
    } else if Next(h, desk).None? {
      assert GateSession(h, desk, seen) == Ok;
      forall k: nat ensures Clear(s, desk, k) {
        if k > n { EndedChainStaysEnded(s, desk, n + 1, k); }
      }
    } else {
      var id := h.jumpHost.value;
      assert Hop(s, desk, n + 1) == Some(desk.sessions[id]);
      if id in seen {
        assert GateSession(h, desk, seen) == Ok;
        var m: nat :| m <= n && Hop(s, desk, m) == Some(desk.sessions[id]);
        forall k: nat ensures Clear(s, desk, k) { CyclesAddNothing(s, desk, m, n, k); }
      } else {
        assert id in desk.sessions.Keys - seen;
        forall i | i in seen + {id} ensures Passed(s, desk, n + 1, i) { PassedLater(s, desk, n, i); }
        GateFollowsChain(s, desk, n + 1, seen + {id});
        assert GateSession(h, desk, seen) == GateSession(desk.sessions[id], desk, seen + {id});
      }
    }
  }

  /**
   * Over any session table, cycles and dangling ids included: the gate opens exactly when no hop of
   * the chain has an obstacle, and otherwise names the first one.
   */
  lemma GateIsTheChainVerdict(s: Session, desk: Desk)
    ensures ChainVerdict(s, desk, GateSession(s, desk, {}))
    ensures GateSession(s, desk, {}).Ok? <==> forall k: nat :: Clear(s, desk, k)
  {
    GateFollowsChain(s, desk, 0, {});
    var v := GateSession(s, desk, {});
    if v.Blocked? {
      var k: nat :| Hop(s, desk, k).Some? && Obstacle(Hop(s, desk, k).value, desk) == Some(v.reason);
      assert !Clear(s, desk, k);
    }
  }
}
