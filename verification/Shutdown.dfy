/** The registry of live connections: tokens to descriptor numbers, and a latch. */
module Registry {
  datatype Registry = Registry(connections: map<nat, nat>, next: nat, stopping: bool)

  const EMPTY := Registry(map[], 1, false)

  /** Zero means the registry is stopping and nothing was registered. */
  function Added(r: Registry, fd: nat): (Registry, nat) {
    if r.stopping then (r, 0)
    else (Registry(r.connections[r.next := fd], r.next + 1, false), r.next)
  }

  function Removed(r: Registry, token: nat): Registry {
    r.(connections := r.connections - {token})
  }

  predicate Sound(r: Registry) {
    0 < r.next && forall t <- r.connections :: 0 < t < r.next
  }
}

/** Connections from accept to close, the registry, the kernel's descriptor table
    and the shutdown sequence, as atomic steps of any number of threads. */
module Shutdown {
  import opened Registry

  /** What became of a connection. */
  datatype Outcome = Rejected | Completed | Abandoned | Discarded

  /** Where a connection is. `Leaving` is out of the registry, descriptor still
      open. */
  datatype State =
    | InHand
    | Queued
    | Starting
    | Reading(token: nat)
    | Handling(token: nat)
    | Done(token: nat)
    | Leaving(outcome: Outcome)
    | Closed(outcome: Outcome)

  datatype Conn = Conn(fd: nat, broken: bool, state: State)

  /** Whose open file a descriptor number names: a connection's, or some other
      file of the process. */
  datatype Owner = OfConn(conn: nat) | OfOther

  /** Where the thread in `run` is. `Sweeping` is inside `stop_all`, which holds
      the registry's mutex; `Discarding` is inside the pool's shutdown, which holds
      the pool's. */
  datatype Phase =
    | Accepting
    | ListenerClosed
    | Sweeping(todo: set<nat>)
    | Swept
    | Discarding
    | Drained
    | Joined

  datatype World = World(
    conns: seq<Conn>,
    open: map<nat, Owner>,
    registry: Registry,
    holder: map<nat, nat>,
    phase: Phase,
    accepted: nat,
    rejected: nat,
    completed: nat)

  const START := World([], map[], EMPTY, map[], Accepting, 0, 0, 0)

  datatype Step =
    | Accept(fd: nat)
    | PostAccepted(i: nat)
    | PostRefused(i: nat)
    | Take(i: nat)
    | Register(i: nat)
    | Receive(i: nat)
    | Reply(i: nat)
    | HangUp(i: nat)
    | Deregister(i: nat)
    | Close(i: nat)
    | CloseListener
    | BeginSweep
    | SweepOne(token: nat)
    | EndSweep
    | BeginDiscard
    | DiscardOne(i: nat)
    | EndDiscard
    | Join
    | OpenOther(fd: nat)
    | CloseOther(fd: nat)

  predicate InState(w: World, i: nat, s: State) {
    i < |w.conns| && w.conns[i].state == s
  }

  predicate None(w: World, s: State) {
    forall i :: 0 <= i < |w.conns| ==> w.conns[i].state != s
  }

  predicate AllClosed(w: World) {
    forall i :: 0 <= i < |w.conns| ==> w.conns[i].state.Closed?
  }

  predicate Enabled(w: World, s: Step) {
    match s
    case Accept(fd) => w.phase.Accepting? && None(w, InHand) && fd !in w.open
    case PostAccepted(i) => InState(w, i, InHand)
    case PostRefused(i) => InState(w, i, InHand)
    case Take(i) => InState(w, i, Queued) && !w.phase.Discarding?
    case Register(i) => InState(w, i, Starting) && !w.phase.Sweeping?
    case Receive(i) => i < |w.conns| && w.conns[i].state.Reading?
    case Reply(i) => i < |w.conns| && w.conns[i].state.Handling?
    case HangUp(i) => i < |w.conns| && (w.conns[i].state.Reading? || w.conns[i].state.Handling?)
    case Deregister(i) => i < |w.conns| && w.conns[i].state.Done? && !w.phase.Sweeping?
    case Close(i) => i < |w.conns| && w.conns[i].state.Leaving?
    case CloseListener => w.phase.Accepting? && None(w, InHand)
    case BeginSweep => w.phase.ListenerClosed?
    case SweepOne(token) => w.phase.Sweeping? && token in w.phase.todo && token in w.registry.connections
    case EndSweep => w.phase.Sweeping? && w.phase.todo == {}
    case BeginDiscard => w.phase.Swept?
    case DiscardOne(i) => w.phase.Discarding? && InState(w, i, Queued)
    case EndDiscard => w.phase.Discarding? && None(w, Queued)
    case Join => w.phase.Drained? && AllClosed(w)
    case OpenOther(fd) => fd !in w.open
    case CloseOther(fd) => fd in w.open && w.open[fd].OfOther?
  }

  function Move(w: World, i: nat, s: State): World
    requires i < |w.conns|
  {
    w.(conns := w.conns[i := w.conns[i].(state := s)])
  }

  /** The descriptor goes back to the kernel, which may hand the number out again. */
  function MoveAndClose(w: World, i: nat, outcome: Outcome): World
    requires i < |w.conns|
  {
    Move(w, i, Closed(outcome)).(open := w.open - {w.conns[i].fd})
  }

  /** shutdown(2): breaks whatever connection the number names right now. */
  function ShutDown(w: World, fd: nat): World {
    if fd in w.open && w.open[fd].OfConn? && w.open[fd].conn < |w.conns|
    then var c := w.open[fd].conn; w.(conns := w.conns[c := w.conns[c].(broken := true)])
    else w
  }

  function Next(w: World, s: Step): World
    requires Enabled(w, s)
  {
    match s
    case Accept(fd) =>
      w.(conns := w.conns + [Conn(fd, false, InHand)], open := w.open[fd := OfConn(|w.conns|)],
         accepted := w.accepted + 1)
    case PostAccepted(i) => Move(w, i, Queued)
    case PostRefused(i) => MoveAndClose(w, i, Rejected).(rejected := w.rejected + 1)
    case Take(i) => Move(w, i, Starting)
    case Register(i) =>
      var (registry, token) := Added(w.registry, w.conns[i].fd);
      if token == 0 then Move(w, i, Leaving(Abandoned))
      else Move(w, i, Reading(token)).(registry := registry, holder := w.holder[token := i])
    case Receive(i) => Move(w, i, Handling(w.conns[i].state.token))
    case Reply(i) =>
      if w.conns[i].broken then Move(w, i, Done(w.conns[i].state.token)).(completed := w.completed + 1)
      else Move(w, i, Reading(w.conns[i].state.token))
    case HangUp(i) => Move(w, i, Done(w.conns[i].state.token)).(completed := w.completed + 1)
    case Deregister(i) =>
      var token := w.conns[i].state.token;
      Move(w, i, Leaving(Completed)).(registry := Removed(w.registry, token), holder := w.holder - {token})
    case Close(i) => MoveAndClose(w, i, w.conns[i].state.outcome)
    case CloseListener => w.(phase := ListenerClosed)
    case BeginSweep =>
      w.(registry := w.registry.(stopping := true), phase := Sweeping(w.registry.connections.Keys))
    case SweepOne(token) =>
      ShutDown(w, w.registry.connections[token]).(phase := Sweeping(w.phase.todo - {token}))
    case EndSweep => w.(phase := Swept)
    case BeginDiscard => w.(phase := Discarding)
    case DiscardOne(i) => MoveAndClose(w, i, Discarded)
    case EndDiscard => w.(phase := Drained)
    case Join => w.(phase := Joined)
    case OpenOther(fd) => w.(open := w.open[fd := OfOther])
    case CloseOther(fd) => w.(open := w.open - {fd})
  }

  // -------------------------------------------------------------------------
  // Descriptors belong to connections that are not closed
  // -------------------------------------------------------------------------

  function At(conns: seq<Conn>, i: nat, s: State): seq<Conn>
    requires i < |conns|
  {
    conns[i := conns[i].(state := s)]
  }

  ghost predicate Owned(conns: seq<Conn>, open: map<nat, Owner>) {
    && (forall i :: 0 <= i < |conns| && !conns[i].state.Closed? ==>
          conns[i].fd in open && open[conns[i].fd] == OfConn(i))
    && (forall fd :: fd in open && open[fd].OfConn? ==>
          && open[fd].conn < |conns| && conns[open[fd].conn].fd == fd && !conns[open[fd].conn].state.Closed?)
  }

  lemma MoveKeepsOwned(conns: seq<Conn>, open: map<nat, Owner>, i: nat, s: State)
    requires Owned(conns, open) && i < |conns| && !conns[i].state.Closed?
    ensures if s.Closed? then Owned(At(conns, i, s), open - {conns[i].fd}) else Owned(At(conns, i, s), open)
  {
  }

  lemma FilesKeepOwned(conns: seq<Conn>, open: map<nat, Owner>, fd: nat)
    requires Owned(conns, open)
    ensures fd !in open ==>
              Owned(conns, open[fd := OfOther]) && Owned(conns + [Conn(fd, false, InHand)], open[fd := OfConn(|conns|)])
    ensures fd in open && open[fd].OfOther? ==> Owned(conns, open - {fd})
    ensures fd in open && open[fd].OfConn? ==>
              var c := open[fd].conn; c < |conns| && Owned(conns[c := conns[c].(broken := true)], open)
  {
  }

  lemma StepKeepsOwned(w: World, s: Step)
    requires Owned(w.conns, w.open) && Enabled(w, s)
    ensures Owned(Next(w, s).conns, Next(w, s).open)
  {
    hide Owned;
    hide None;
    hide AllClosed;
    match s
    case Accept(fd) => FilesKeepOwned(w.conns, w.open, fd);
    case OpenOther(fd) => FilesKeepOwned(w.conns, w.open, fd);
    case CloseOther(fd) => FilesKeepOwned(w.conns, w.open, fd);
    case SweepOne(token) => FilesKeepOwned(w.conns, w.open, w.registry.connections[token]);
    case PostAccepted(i) => MoveKeepsOwned(w.conns, w.open, i, Queued);
    case PostRefused(i) => MoveKeepsOwned(w.conns, w.open, i, Closed(Rejected));
    case Take(i) => MoveKeepsOwned(w.conns, w.open, i, Starting);
    case Register(i) => MoveKeepsOwned(w.conns, w.open, i, Next(w, s).conns[i].state);
    case Receive(i) => MoveKeepsOwned(w.conns, w.open, i, Next(w, s).conns[i].state);
    case Reply(i) => MoveKeepsOwned(w.conns, w.open, i, Next(w, s).conns[i].state);
    case HangUp(i) => MoveKeepsOwned(w.conns, w.open, i, Next(w, s).conns[i].state);
    case Deregister(i) => MoveKeepsOwned(w.conns, w.open, i, Leaving(Completed));
    case Close(i) => MoveKeepsOwned(w.conns, w.open, i, Closed(w.conns[i].state.outcome));
    case DiscardOne(i) => MoveKeepsOwned(w.conns, w.open, i, Closed(Discarded));
    case _ =>
  }

  // -------------------------------------------------------------------------
  // The registry holds exactly the registered connections
  // -------------------------------------------------------------------------

  predicate HasToken(s: State) {
    s.Reading? || s.Handling? || s.Done?
  }

  predicate Holds(conns: seq<Conn>, registry: Registry, t: nat, i: nat) {
    && i < |conns| && HasToken(conns[i].state) && conns[i].state.token == t
    && t in registry.connections && registry.connections[t] == conns[i].fd
  }

  ghost predicate Registered(conns: seq<Conn>, registry: Registry, holder: map<nat, nat>) {
    && Sound(registry) && holder.Keys == registry.connections.Keys
    && (forall i :: 0 <= i < |conns| && HasToken(conns[i].state) ==>
          conns[i].state.token in holder && holder[conns[i].state.token] == i)
    && (forall t :: t in holder ==> Holds(conns, registry, t, holder[t]))
  }

  predicate SameToken(a: State, b: State) {
    HasToken(a) == HasToken(b) && (HasToken(a) ==> a.token == b.token)
  }

  lemma MoveKeepsRegistered(conns: seq<Conn>, registry: Registry, holder: map<nat, nat>, i: nat, c: Conn)
    requires Registered(conns, registry, holder) && i < |conns|
    requires c.fd == conns[i].fd && SameToken(c.state, conns[i].state)
    ensures Registered(conns[i := c], registry, holder)
    ensures Registered(conns[i := c], registry.(stopping := true), holder)
  {
    var conns' := conns[i := c];
    forall t | t in holder
      ensures Holds(conns', registry, t, holder[t]) && Holds(conns', registry.(stopping := true), t, holder[t])
    {
      assert Holds(conns, registry, t, holder[t]);
    }
  }

  lemma AddKeepsRegistered(conns: seq<Conn>, registry: Registry, holder: map<nat, nat>, i: nat)
    requires Registered(conns, registry, holder) && i < |conns| && !HasToken(conns[i].state) && !registry.stopping
    ensures var (registry', token) := Added(registry, conns[i].fd);
            Registered(At(conns, i, Reading(token)), registry', holder[token := i])
  {
    var (registry', token) := Added(registry, conns[i].fd);
    var conns', holder' := At(conns, i, Reading(token)), holder[token := i];
    forall t | t in holder'
      ensures Holds(conns', registry', t, holder'[t])
    {
      assert t in holder ==> Holds(conns, registry, t, holder[t]);
    }
  }

  lemma RemoveKeepsRegistered(conns: seq<Conn>, registry: Registry, holder: map<nat, nat>, i: nat, s: State)
    requires Registered(conns, registry, holder) && i < |conns| && HasToken(conns[i].state) && !HasToken(s)
    ensures var t := conns[i].state.token; Registered(At(conns, i, s), Removed(registry, t), holder - {t})
  {
    var token := conns[i].state.token;
    var conns', registry', holder' := At(conns, i, s), Removed(registry, token), holder - {token};
    forall t | t in holder'
      ensures Holds(conns', registry', t, holder'[t])
    {
      assert Holds(conns, registry, t, holder[t]);
    }
  }

  lemma AcceptKeepsRegistered(conns: seq<Conn>, registry: Registry, holder: map<nat, nat>, fd: nat)
    requires Registered(conns, registry, holder)
    ensures Registered(conns + [Conn(fd, false, InHand)], registry, holder)
    ensures Registered(conns, registry.(stopping := true), holder)
  {
    var conns' := conns + [Conn(fd, false, InHand)];
    forall t | t in holder
      ensures Holds(conns', registry, t, holder[t]) && Holds(conns, registry.(stopping := true), t, holder[t])
    {
      assert Holds(conns, registry, t, holder[t]);
    }
  }

  ghost predicate Inv(w: World) {
    Owned(w.conns, w.open) && Registered(w.conns, w.registry, w.holder) && Phased(w)
  }

  lemma StepKeepsRegistered(w: World, s: Step)
    requires Registered(w.conns, w.registry, w.holder) && Enabled(w, s)
    ensures Registered(Next(w, s).conns, Next(w, s).registry, Next(w, s).holder)
  {
    TokensArePositive(w);
    hide Registered;
    hide None;
    hide AllClosed;
    var w' := Next(w, s);
    match s
    case Accept(fd) => AcceptKeepsRegistered(w.conns, w.registry, w.holder, fd);
    case BeginSweep => AcceptKeepsRegistered(w.conns, w.registry, w.holder, 0);
    case SweepOne(token) =>
      var fd := w.registry.connections[token];
      if fd in w.open && w.open[fd].OfConn? && w.open[fd].conn < |w.conns| {
        var c := w.open[fd].conn;
        MoveKeepsRegistered(w.conns, w.registry, w.holder, c, w'.conns[c]);
      }
    case Register(i) =>
      if w.registry.stopping {
        MoveKeepsRegistered(w.conns, w.registry, w.holder, i, w'.conns[i]);
      } else {
        AddKeepsRegistered(w.conns, w.registry, w.holder, i);
      }
    case Deregister(i) => RemoveKeepsRegistered(w.conns, w.registry, w.holder, i, Leaving(Completed));
    case PostAccepted(i) => MoveKeepsRegistered(w.conns, w.registry, w.holder, i, w'.conns[i]);
    case PostRefused(i) => MoveKeepsRegistered(w.conns, w.registry, w.holder, i, w'.conns[i]);
    case Take(i) => MoveKeepsRegistered(w.conns, w.registry, w.holder, i, w'.conns[i]);
    case Receive(i) => MoveKeepsRegistered(w.conns, w.registry, w.holder, i, w'.conns[i]);
    case Reply(i) => MoveKeepsRegistered(w.conns, w.registry, w.holder, i, w'.conns[i]);
    case HangUp(i) => MoveKeepsRegistered(w.conns, w.registry, w.holder, i, w'.conns[i]);
    case Close(i) => MoveKeepsRegistered(w.conns, w.registry, w.holder, i, w'.conns[i]);
    case DiscardOne(i) => MoveKeepsRegistered(w.conns, w.registry, w.holder, i, w'.conns[i]);
    case _ =>
  }

  lemma TokensArePositive(w: World)
    requires Registered(w.conns, w.registry, w.holder)
    ensures 0 < w.registry.next
  {
  }

  // -------------------------------------------------------------------------
  // Where shutdown has got to
  // -------------------------------------------------------------------------

  predicate Past(p: Phase) {
    p.Swept? || p.Discarding? || p.Drained? || p.Joined?
  }

  /** Registered connections that the sweep has already dealt with. */
  predicate Dealt(p: Phase, token: nat) {
    Past(p) || (p.Sweeping? && token !in p.todo)
  }

  predicate Settled(p: Phase, c: Conn) {
    && (!p.Accepting? ==> c.state != InHand)
    && (p.Drained? || p.Joined? ==> c.state != Queued)
    && (p.Joined? ==> c.state.Closed?)
    && (c.state.Leaving? ==> c.state.outcome.Completed? || c.state.outcome.Abandoned?)
    && (HasToken(c.state) && Dealt(p, c.state.token) ==> c.broken)
  }

  ghost predicate Phased(w: World) {
    && (w.registry.stopping <==> w.phase.Sweeping? || Past(w.phase))
    && (w.phase.Sweeping? ==> w.phase.todo <= w.registry.connections.Keys)
    && (forall i :: 0 <= i < |w.conns| ==> Settled(w.phase, w.conns[i]))
  }

  /** When `stop_all` comes to a token, its descriptor number is open and names the
      very connection that registered it: never a closed one, never another file
      that the kernel gave the number to. */
  lemma SweepTouchesItsOwn(w: World, token: nat)
    requires Inv(w) && Enabled(w, SweepOne(token))
    ensures var fd := w.registry.connections[token];
            && token in w.holder && fd in w.open && w.open[fd] == OfConn(w.holder[token])
            && Holds(w.conns, w.registry, token, w.holder[token])
            && Next(w, SweepOne(token)).conns
               == w.conns[w.holder[token] := w.conns[w.holder[token]].(broken := true)]
  {
    assert Holds(w.conns, w.registry, token, w.holder[token]);
  }

  lemma StepKeepsPhased(w: World, s: Step)
    requires Inv(w) && Enabled(w, s)
    ensures Phased(Next(w, s))
  {
    if s.SweepOne? {
      SweepKeepsPhased(w, s.token);
    } else if MovesServer(s) {
      ServerStepKeepsPhased(w, s);
    } else {
      ConnStepKeepsPhased(w, s);
    }
  }

  /** The steps of the thread in `run` once it has left its loop. */
  predicate MovesServer(s: Step) {
    s.CloseListener? || s.BeginSweep? || s.EndSweep? || s.BeginDiscard? || s.EndDiscard? || s.Join?
  }

  lemma ServerStepKeepsPhased(w: World, s: Step)
    requires Inv(w) && Enabled(w, s) && MovesServer(s)
    ensures Phased(Next(w, s))
  {
    TokensAreRegistered(w);
    hide Owned;
    hide Registered;
  }

  lemma ConnStepKeepsPhased(w: World, s: Step)
    requires Inv(w) && Enabled(w, s) && !MovesServer(s) && !s.SweepOne?
    ensures Phased(Next(w, s))
  {
    hide Owned;
    hide Registered;
    hide AllClosed;
    hide None;
    var w' := Next(w, s);
    assert w'.phase == w.phase && w'.registry.stopping == w.registry.stopping;
    forall i | 0 <= i < |w'.conns|
      ensures Settled(w.phase, w'.conns[i])
    {
      assert i < |w.conns| ==> Settled(w.phase, w.conns[i]);
    }
  }

  lemma TokensAreRegistered(w: World)
    requires Registered(w.conns, w.registry, w.holder)
    ensures forall i :: 0 <= i < |w.conns| && HasToken(w.conns[i].state) ==>
                          w.conns[i].state.token in w.registry.connections
    ensures forall i, j :: 0 <= i < |w.conns| && 0 <= j < |w.conns| && i != j
                           && HasToken(w.conns[i].state) && HasToken(w.conns[j].state) ==>
                             w.conns[i].state.token != w.conns[j].state.token
  {
  }

  lemma SweepKeepsPhased(w: World, token: nat)
    requires Inv(w) && Enabled(w, SweepOne(token))
    ensures Phased(Next(w, SweepOne(token)))
  {
    SweepTouchesItsOwn(w, token);
    TokensAreRegistered(w);
    hide Owned;
    hide Registered;
  }
}
