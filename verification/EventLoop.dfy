/**
 The daemon's main loop: the two Unix-socket transports that take and return
 admission tokens, and the hot-reload cycle. Callbacks run one at a time on the
 loop, so each is one step here; `Drain.IncAlone` and `Drain.DecAlone` say what
 an inc and a dec amount to in such a step.
 */
module EventLoop {
  import opened Sums

  datatype Transport = Uring | Socket

  datatype Conn = Conn(via: Transport, held: bool)

  /** What the bytes read from a connection ask for. */
  datatype Request = NodeResume | NodeDrain | OtherMethod | Unparsable

  datatype Outcome = Dispatched | Rejected | Closed

  datatype Upgrade = UpIdle | Draining | Ready | Executing

  datatype Entry =
    | Accepted(id: nat, held: bool)
    | Ended(id: nat, outcome: Outcome, req: Request)
    | Returned(id: nat)
    | ExecTried(inflight: int)

  datatype Loop = Loop(
    inflight: int, shutdown: bool, conns: map<nat, Conn>, nextId: nat,
    upgrade: Upgrade, timers: nat, idles: nat, replaced: bool, log: seq<Entry>)

  datatype Event =
    | Accept(via: Transport, arrived: bool, root: bool, submitted: bool)
    | ReadDone(id: nat, bytes: int, wrapped: bool, req: Request, allowed: bool)
    | SigUsr2
    | SigTerm
    | TimerFires
    | IdleRuns(execWorks: bool)

  function Start(): Loop {
    Loop(0, false, map[], 0, UpIdle, 0, 0, false, [])
  }

  /** Whether a request may pass a closed gate. */
  predicate DrainExempt(req: Request, bytes: int) {
    bytes > 0 && req.NodeResume?
  }

  /** What becomes of a connection whose read completed, by transport. */
  function Decide(via: Transport, held: bool, dispatcher: bool, bytes: int, wrapped: bool, req: Request): Outcome {
    match via
    case Uring =>
      if bytes <= 0 || (held && !dispatcher) || !wrapped then Closed
      else if held || (dispatcher && DrainExempt(req, bytes)) then Dispatched
      else Rejected
    case Socket =>
      if !held && !(dispatcher && DrainExempt(req, bytes)) then Rejected
      else if bytes > 0 && dispatcher then Dispatched
      else Closed
  }

  /** The flag after the dispatcher has served a request. */
  function FlagAfter(shutdown: bool, outcome: Outcome, req: Request, allowed: bool): bool {
    if outcome.Dispatched? && allowed && req.NodeDrain? then true
    else if outcome.Dispatched? && allowed && req.NodeResume? then false
    else shutdown
  }

  predicate Enabled(l: Loop, e: Event) {
    && !l.replaced
    && (e.ReadDone? ==> e.id in l.conns)
    && (e.TimerFires? ==> l.timers > 0)
    && (e.IdleRuns? ==> l.idles > 0)
  }

  /** A connection leaves: its outcome is recorded and its token, if any, goes back. */
  function Leave(l: Loop, id: nat, held: bool, outcome: Outcome, req: Request): Loop {
    if held then
      l.(inflight := l.inflight - 1, conns := l.conns - {id}, log := l.log + [Ended(id, outcome, req), Returned(id)])
    else
      l.(conns := l.conns - {id}, log := l.log + [Ended(id, outcome, req)])
  }

  function Enter(l: Loop, via: Transport): Loop {
    var held := !l.shutdown;
    l.(inflight := if held then l.inflight + 1 else l.inflight,
       conns := l.conns[l.nextId := Conn(via, held)],
       nextId := l.nextId + 1,
       log := l.log + [Accepted(l.nextId, held)])
  }

  function Next(l: Loop, dispatcher: bool, e: Event): Loop
    requires Enabled(l, e)
  {
    match e
    case Accept(via, arrived, root, submitted) =>
      if (via.Uring? && !arrived) || !root then l
      else if via.Uring? && !submitted then Leave(Enter(l, via), l.nextId, !l.shutdown, Closed, Unparsable)
      else Enter(l, via)
    case ReadDone(id, bytes, wrapped, req, allowed) =>
      var c := l.conns[id];
      var outcome := Decide(c.via, c.held, dispatcher, bytes, wrapped, req);
      Leave(l.(shutdown := FlagAfter(l.shutdown, outcome, req, allowed)), id, c.held, outcome, req)
    case SigUsr2 =>
      if l.upgrade.UpIdle? then l.(upgrade := Draining, shutdown := true, timers := l.timers + 1) else l
    case SigTerm => l.(shutdown := true)
    case TimerFires =>
      if l.inflight == 0 then l.(upgrade := Ready, timers := l.timers - 1, idles := l.idles + 1) else l
    case IdleRuns(execWorks) =>
      var tried := l.(upgrade := Executing, idles := l.idles - 1, log := l.log + [ExecTried(l.inflight)]);
      if execWorks then tried.(replaced := true) else tried.(upgrade := UpIdle, shutdown := false)
  }

  // ----- the callbacks, as the source runs them

  class Daemon {
    const dispatcher: bool
    var inflight: int
    var shutdown: bool
    var conns: map<nat, Conn>
    var nextId: nat
    var upgrade: Upgrade
    var timers: nat
    var idles: nat
    var replaced: bool
    var log: seq<Entry>

    function View(): Loop
      reads this
    {
      Loop(inflight, shutdown, conns, nextId, upgrade, timers, idles, replaced, log)
    }

    constructor (dispatcher: bool)
      ensures View() == Start() && this.dispatcher == dispatcher
    {
      this.dispatcher := dispatcher;
      inflight, shutdown, conns, nextId := 0, false, map[], 0;
      upgrade, timers, idles, replaced, log := UpIdle, 0, 0, false, [];
    }

    method DrainInc() returns (admitted: bool)
      modifies this`inflight
      ensures admitted == !shutdown
      ensures inflight == if admitted then old(inflight) + 1 else old(inflight)
    {
      if shutdown {
        return false;
      }
      inflight := inflight + 1;
      return true;
    }

    method DrainDec()
      modifies this`inflight
      ensures inflight == old(inflight) - 1
    {
      inflight := inflight - 1;
    }

    /** The dispatcher's handlers that move the flag: node.drain and node.resume. */
    method Dispatch(id: nat, req: Request, allowed: bool)
      modifies this`shutdown, this`log
      ensures shutdown == FlagAfter(old(shutdown), Dispatched, req, allowed)
      ensures log == old(log) + [Ended(id, Dispatched, req)]
    {
      log := log + [Ended(id, Dispatched, req)];
      if allowed {
        if req.NodeDrain? {
          shutdown := true;
        } else if req.NodeResume? {
          shutdown := false;
        }
      }
    }

    method UringAccept(arrived: bool, root: bool, submitted: bool)
      requires !replaced
      modifies this
      ensures View() == Next(old(View()), dispatcher, Accept(Uring, arrived, root, submitted))
    {
      if !arrived {
        return;
      }
      if !root {
        return;
      }
      var held := DrainInc();
      var id := nextId;
      nextId := nextId + 1;
      conns := conns[id := Conn(Uring, held)];
      log := log + [Accepted(id, held)];
      if !submitted {
        log := log + [Ended(id, Closed, Unparsable)];
        if held {
          DrainDec();
          log := log + [Returned(id)];
        }
        conns := conns - {id};
      }
      assert old(log) + [Accepted(id, held)] + [Ended(id, Closed, Unparsable)] + [Returned(id)]
          == old(log) + [Accepted(id, held)] + [Ended(id, Closed, Unparsable), Returned(id)];
    }

    method UringRead(id: nat, result: int, wrapped: bool, req: Request, allowed: bool)
      requires !replaced && id in conns && conns[id].via.Uring?
      modifies this
      ensures View() == Next(old(View()), dispatcher, ReadDone(id, result, wrapped, req, allowed))
    {
      var ctx := conns[id];
      label cleanup: {
        if result <= 0 {
          log := log + [Ended(id, Closed, req)];
          break cleanup;
        }
        if ctx.held && !dispatcher {
          log := log + [Ended(id, Closed, req)];
          break cleanup;
        }
        if !wrapped {
          log := log + [Ended(id, Closed, req)];
          break cleanup;
        }
        var exempt := !ctx.held && dispatcher && DrainExempt(req, result);
        if !ctx.held && !exempt {
          log := log + [Ended(id, Rejected, req)];
        } else {
          Dispatch(id, req, allowed);
        }
      }
      var outcome := Decide(Uring, ctx.held, dispatcher, result, wrapped, req);
      assert log == old(log) + [Ended(id, outcome, req)];
      if ctx.held {
        DrainDec();
        log := log + [Returned(id)];
        assert log == old(log) + [Ended(id, outcome, req), Returned(id)];
      }
      conns := conns - {id};
    }

    method IncomingConnection(root: bool)
      requires !replaced
      modifies this
      ensures View() == Next(old(View()), dispatcher, Accept(Socket, true, root, true))
    {
      if !root {
        return;
      }
      var held := DrainInc();
      conns := conns[nextId := Conn(Socket, held)];
      log := log + [Accepted(nextId, held)];
      nextId := nextId + 1;
    }

    method ReadFinished(id: nat, bytes: int, req: Request, allowed: bool)
      requires !replaced && id in conns && conns[id].via.Socket?
      modifies this
      ensures View() == Next(old(View()), dispatcher, ReadDone(id, bytes, true, req, allowed))
    {
      var ctx := conns[id];
      var exempt := !ctx.held && bytes > 0 && dispatcher && DrainExempt(req, bytes);
      if !ctx.held && !exempt {
        log := log + [Ended(id, Rejected, req)];
      } else if bytes > 0 {
        if dispatcher {
          Dispatch(id, req, allowed);
        } else {
          log := log + [Ended(id, Closed, req)];
        }
      } else {
        log := log + [Ended(id, Closed, req)];
      }
      var outcome := Decide(Socket, ctx.held, dispatcher, bytes, true, req);
      assert log == old(log) + [Ended(id, outcome, req)];
      if ctx.held {
        DrainDec();
        log := log + [Returned(id)];
        assert log == old(log) + [Ended(id, outcome, req), Returned(id)];
      }
      conns := conns - {id};
    }

    method OnSigUsr2()
      requires !replaced
      modifies this
      ensures View() == Next(old(View()), dispatcher, SigUsr2)
    {
      if upgrade != UpIdle {
        return;
      }
      upgrade := Draining;
      if !shutdown {
        shutdown := true;
      }
      timers := timers + 1;
    }

    /** The programmatic trigger: refused while a cycle is under way. */
    method Prepare() returns (ok: bool)
      requires !replaced
      modifies this
      ensures ok <==> old(upgrade).UpIdle?
      ensures View() == if ok then Next(old(View()), dispatcher, SigUsr2) else old(View())
    {
      if upgrade != UpIdle {
        return false;
      }
      OnSigUsr2();
      return true;
    }

    method DrainCheckTimer() returns (keep: bool)
      requires !replaced && timers > 0
      modifies this
      ensures keep <==> old(inflight) != 0
      ensures View() == Next(old(View()), dispatcher, TimerFires)
    {
      if !(inflight == 0) {
        return true;
      }
      upgrade := Ready;
      idles := idles + 1;
      timers := timers - 1;
      return false;
    }

    method DoUpgrade(execWorks: bool)
      requires !replaced && idles > 0
      modifies this
      ensures View() == Next(old(View()), dispatcher, IdleRuns(execWorks))
    {
      upgrade := Executing;
      idles := idles - 1;
      log := log + [ExecTried(inflight)];
      if execWorks {
        replaced := true;
        return;
      }
      upgrade := UpIdle;
      shutdown := false;
    }
  }

  // ----- runs of the loop

  predicate Legal(l: Loop, d: bool, es: seq<Event>)
    decreases |es|
  {
    es == [] || (Enabled(l, es[0]) && Legal(Next(l, d, es[0]), d, es[1..]))
  }

  function Exec(l: Loop, d: bool, es: seq<Event>): Loop
    requires Legal(l, d, es)
    decreases |es|
  {
    if es == [] then l else Exec(Next(l, d, es[0]), d, es[1..])
  }

  function HeldIds(conns: map<nat, Conn>): set<nat> {
    set id | id in conns && conns[id].held
  }

  function AdmittedTimes(id: nat): Entry -> nat {
    (e: Entry) => if e == Accepted(id, true) then 1 else 0
  }

  function ReturnedTimes(id: nat): Entry -> nat {
    (e: Entry) => if e == Returned(id) then 1 else 0
  }

  function EndedTimes(id: nat): Entry -> nat {
    (e: Entry) => if e.Ended? && e.id == id then 1 else 0
  }

  /** The account of one connection: token taken, token returned, outcomes reported. */
  function Account(l: Loop, id: nat): (nat, nat, nat) {
    (Sum(AdmittedTimes(id), l.log), Sum(ReturnedTimes(id), l.log), Sum(EndedTimes(id), l.log))
  }

  /** What the account must be, live, finished or not yet seen. */
  ghost predicate AccountOk(l: Loop, id: nat) {
    var (taken, back, ended) := Account(l, id);
    if id in l.conns then taken == (if l.conns[id].held then 1 else 0) && back == 0 && ended == 0
    else if id < l.nextId then back == taken <= 1 && ended == 1
    else taken == back == ended == 0
  }

  ghost predicate TokensOk(l: Loop) {
    && (forall id :: id in l.conns ==> id < l.nextId)
    && l.inflight == |HeldIds(l.conns)|
    && forall id: nat :: AccountOk(l, id)
  }

  /** A timer is pending exactly while draining, an idle exactly while ready, never both or two. */
  predicate CycleOk(l: Loop) {
    && l.timers == (if l.upgrade.Draining? then 1 else 0)
    && l.idles == (if l.upgrade.Ready? then 1 else 0)
    && (l.upgrade.Executing? <==> l.replaced)
  }

  /** The requests served without a token are resumes. */
  predicate GateOk(l: Loop) {
    forall i :: 0 <= i < |l.log| ==>
      (l.log[i].Ended? && l.log[i].outcome.Dispatched? && !l.log[i].req.NodeResume? ==>
         Accepted(l.log[i].id, true) in l.log)
  }

  ghost predicate LoopInv(l: Loop) {
    TokensOk(l) && CycleOk(l) && GateOk(l) && AcceptLogged(l)
  }

  predicate AcceptLogged(l: Loop) {
    forall id :: id in l.conns && l.conns[id].held ==> Accepted(id, true) in l.log
  }

  lemma EnterTokens(l: Loop, via: Transport)
    requires TokensOk(l)
    ensures TokensOk(Enter(l, via))
  {
    var l' := Enter(l, via);
    var held := !l.shutdown;
    assert HeldIds(l'.conns) == HeldIds(l.conns) + (if held then {l.nextId} else {});
    forall id: nat ensures AccountOk(l', id) {
      assert AccountOk(l, id);
      SumAppend(AdmittedTimes(id), l.log, Accepted(l.nextId, held));
      SumAppend(ReturnedTimes(id), l.log, Accepted(l.nextId, held));
      SumAppend(EndedTimes(id), l.log, Accepted(l.nextId, held));
    }
  }

  lemma LeaveAccount(l: Loop, id: nat, held: bool, outcome: Outcome, req: Request, x: nat)
    ensures var (t, b, n) := Account(l, x);
      Account(Leave(l, id, held, outcome, req), x) ==
        (t, b + (if held && x == id then 1 else 0), n + (if x == id then 1 else 0))
  {
    var e := Ended(id, outcome, req);
    SumAppend(AdmittedTimes(x), l.log, e);
    SumAppend(ReturnedTimes(x), l.log, e);
    SumAppend(EndedTimes(x), l.log, e);
    if held {
      assert l.log + [e, Returned(id)] == (l.log + [e]) + [Returned(id)];
      SumAppend(AdmittedTimes(x), l.log + [e], Returned(id));
      SumAppend(ReturnedTimes(x), l.log + [e], Returned(id));
      SumAppend(EndedTimes(x), l.log + [e], Returned(id));
    }
  }

  lemma LeaveTokens(l: Loop, id: nat, outcome: Outcome, req: Request)
    requires TokensOk(l) && id in l.conns
    ensures TokensOk(Leave(l, id, l.conns[id].held, outcome, req))
  {
    var held := l.conns[id].held;
    var l' := Leave(l, id, held, outcome, req);
    assert HeldIds(l'.conns) == HeldIds(l.conns) - {id};
    assert id in HeldIds(l.conns) <==> held;
    forall x: nat ensures AccountOk(l', x) {
      assert AccountOk(l, x);
      LeaveAccount(l, id, held, outcome, req, x);
    }
  }

  lemma FlagKeepsTokens(l: Loop, l': Loop)
    requires TokensOk(l) && l'.conns == l.conns && l'.log == l.log && l'.nextId == l.nextId && l'.inflight == l.inflight
    ensures TokensOk(l')
  {
    forall x: nat ensures AccountOk(l', x) {
      assert AccountOk(l, x);
    }
  }

  lemma TokensStep(l: Loop, d: bool, e: Event)
    requires TokensOk(l) && Enabled(l, e)
    ensures TokensOk(Next(l, d, e))
  {
    var l' := Next(l, d, e);
    match e
    case Accept(via, arrived, root, submitted) =>
      EnterTokens(l, via);
      LeaveTokens(Enter(l, via), l.nextId, Closed, Unparsable);
    case ReadDone(id, bytes, wrapped, req, allowed) =>
      var c := l.conns[id];
      var outcome := Decide(c.via, c.held, d, bytes, wrapped, req);
      var l1 := l.(shutdown := FlagAfter(l.shutdown, outcome, req, allowed));
      FlagKeepsTokens(l, l1);
      LeaveTokens(l1, id, outcome, req);
    case IdleRuns(execWorks) =>
      forall x: nat ensures AccountOk(l', x) {
        assert AccountOk(l, x);
        SumAppend(AdmittedTimes(x), l.log, ExecTried(l.inflight));
        SumAppend(ReturnedTimes(x), l.log, ExecTried(l.inflight));
        SumAppend(EndedTimes(x), l.log, ExecTried(l.inflight));
      }
    case SigUsr2 => FlagKeepsTokens(l, l');
    case SigTerm => FlagKeepsTokens(l, l');
    case TimerFires => FlagKeepsTokens(l, l');
  }

  lemma GateStep(l: Loop, d: bool, e: Event)
    requires GateOk(l) && AcceptLogged(l) && Enabled(l, e)
    ensures GateOk(Next(l, d, e)) && AcceptLogged(Next(l, d, e))
  {
    var l' := Next(l, d, e);
    assert l.log <= l'.log;
    forall i | 0 <= i < |l'.log|
      ensures l'.log[i].Ended? && l'.log[i].outcome.Dispatched? && !l'.log[i].req.NodeResume? ==>
                Accepted(l'.log[i].id, true) in l'.log
    {
      if i < |l.log| {
        assert l'.log[i] == l.log[i];
      }
    }
  }

  lemma LoopStep(l: Loop, d: bool, e: Event)
    requires LoopInv(l) && Enabled(l, e)
    ensures LoopInv(Next(l, d, e))
  {
    hide TokensOk, GateOk, AcceptLogged;
    TokensStep(l, d, e);
    GateStep(l, d, e);
  }

  lemma {:induction false} LoopRun(l: Loop, d: bool, es: seq<Event>)
    requires LoopInv(l) && Legal(l, d, es)
    ensures LoopInv(Exec(l, d, es))
    decreases |es|
  {
    if es != [] {
      LoopStep(l, d, es[0]);
      LoopRun(Next(l, d, es[0]), d, es[1..]);
    }
  }

  lemma StartOk()
    ensures LoopInv(Start())
  {
    assert HeldIds(Start().conns) == {};
    forall id: nat ensures AccountOk(Start(), id) {
    }
  }

  // ----- main results

  /**
   Token conservation over every sequence of callbacks on both transports: the
   counter is the number of live connections holding a token; a finished
   connection reported exactly one outcome and returned its token exactly as
   often as it took one, at most once.
   */
  lemma TokenConservation(d: bool, es: seq<Event>, id: nat)
    requires Legal(Start(), d, es)
    ensures var l := Exec(Start(), d, es);
      && l.inflight == |HeldIds(l.conns)|
      && var (taken, back, ended) := Account(l, id);
         && back <= taken <= 1
         && (taken - back == 1 <==> id in l.conns && l.conns[id].held)
         && (ended == 1 <==> id < l.nextId && id !in l.conns) && ended <= 1
  {
    StartOk();
    LoopRun(Start(), d, es);
    assert AccountOk(Exec(Start(), d, es), id);
  }

  /** Exactly when the two transports treat a completed read alike. */
  lemma TransportsAgree(held: bool, d: bool, bytes: int, wrapped: bool, req: Request)
    ensures Decide(Uring, held, d, bytes, wrapped, req) == Decide(Socket, held, d, bytes, wrapped, req)
       <==> (if bytes > 0 then wrapped || (held && !d) else held)
  {
  }

  /** The flag is set before every event of the run. */
  predicate ShutThroughout(l: Loop, d: bool, es: seq<Event>)
    requires Legal(l, d, es)
    decreases |es|
  {
    es == [] || (l.shutdown && ShutThroughout(Next(l, d, es[0]), d, es[1..]))
  }

  predicate NewcomersTokenless(l: Loop, base: nat) {
    forall i :: 0 <= i < |l.log| ==> l.log[i].Accepted? && l.log[i].id >= base ==> !l.log[i].held
  }

  lemma {:induction false} ShutRun(l: Loop, d: bool, es: seq<Event>, base: nat)
    requires Legal(l, d, es) && ShutThroughout(l, d, es) && NewcomersTokenless(l, base)
    ensures NewcomersTokenless(Exec(l, d, es), base)
    decreases |es|
  {
    if es != [] {
      var l' := Next(l, d, es[0]);
      forall i | 0 <= i < |l'.log| && l'.log[i].Accepted? && l'.log[i].id >= base ensures !l'.log[i].held {
        assert l.log <= l'.log;
        assert i < |l.log| ==> l'.log[i] == l.log[i];
      }
      ShutRun(l', d, es[1..], base);
    }
  }

  /**
   The shutdown gate: in a stretch of any run through which the flag stays set,
   a connection accepted in the stretch reaches the dispatcher only to resume.
   */
  lemma ShutdownGate(d: bool, before: seq<Event>, es: seq<Event>, i: nat)
    requires Legal(Start(), d, before) && Legal(Exec(Start(), d, before), d, es)
    requires ShutThroughout(Exec(Start(), d, before), d, es)
    ensures var l := Exec(Start(), d, before);
      var l' := Exec(l, d, es);
      i < |l'.log| && l'.log[i].Ended? && l'.log[i].id >= l.nextId && l'.log[i].outcome.Dispatched? ==>
        l'.log[i].req.NodeResume?
  {
    StartOk();
    LoopRun(Start(), d, before);
    var l := Exec(Start(), d, before);
    forall j | 0 <= j < |l.log| && l.log[j].Accepted? && l.log[j].id >= l.nextId ensures !l.log[j].held {
      assert AccountOk(l, l.log[j].id);
      SumAtLeast(AdmittedTimes(l.log[j].id), l.log, j);
    }
    ShutRun(l, d, es, l.nextId);
    LoopRun(l, d, es);
  }

  // ----- hot reload

  /** A dispatched resume or a failed exec reopens admission. */
  predicate Reopens(l: Loop, d: bool, e: Event)
    requires Enabled(l, e)
  {
    l.shutdown && !Next(l, d, e).shutdown
  }

  predicate NoReopening(l: Loop, d: bool, es: seq<Event>)
    requires Legal(l, d, es)
    decreases |es|
  {
    es == [] || (!Reopens(l, d, es[0]) && NoReopening(Next(l, d, es[0]), d, es[1..]))
  }

  /** A cycle nobody has cancelled: the gate is shut, and once ready nothing is in flight. */
  predicate Sealed(l: Loop) {
    l.upgrade.UpIdle? || (l.shutdown && (l.upgrade.Draining? || l.inflight == 0))
  }

  lemma SealedStep(l: Loop, d: bool, e: Event)
    requires LoopInv(l) && Sealed(l) && Enabled(l, e) && !Reopens(l, d, e)
    ensures Sealed(Next(l, d, e))
    ensures e.IdleRuns? ==> l.inflight == 0
  {
    if e.ReadDone? && l.inflight == 0 {
      assert e.id in HeldIds(l.conns) <==> l.conns[e.id].held;
    }
  }

  lemma {:induction false} SealedRun(l: Loop, d: bool, es: seq<Event>)
    requires LoopInv(l) && Sealed(l) && Legal(l, d, es) && NoReopening(l, d, es)
    ensures Sealed(Exec(l, d, es))
    decreases |es|
  {
    if es != [] {
      SealedStep(l, d, es[0]);
      LoopStep(l, d, es[0]);
      SealedRun(Next(l, d, es[0]), d, es[1..]);
    }
  }

  /** Over every run: one pending source exactly while a cycle is under way, so cycles never overlap. */
  lemma OneCycleAtATime(d: bool, es: seq<Event>)
    requires Legal(Start(), d, es)
    ensures var l := Exec(Start(), d, es);
      && l.timers + l.idles == (if l.upgrade.Draining? || l.upgrade.Ready? then 1 else 0)
      && (l.timers == 1 <==> l.upgrade.Draining?) && (l.idles == 1 <==> l.upgrade.Ready?)
      && (l.upgrade.Executing? <==> l.replaced)
  {
    StartOk();
    LoopRun(Start(), d, es);
  }

  /**
   From the signal that starts a cycle, over any run on which admission is not
   reopened, the exec is tried only with nothing in flight; and a failed exec
   leaves the cycle idle with admission open.
   */
  lemma ExecOnlyWhenDrained(d: bool, before: seq<Event>, es: seq<Event>, execWorks: bool)
    requires Legal(Start(), d, before)
    requires Exec(Start(), d, before).upgrade.UpIdle? && !Exec(Start(), d, before).replaced
    requires Legal(Next(Exec(Start(), d, before), d, SigUsr2), d, es)
    requires NoReopening(Next(Exec(Start(), d, before), d, SigUsr2), d, es)
    ensures var l := Exec(Next(Exec(Start(), d, before), d, SigUsr2), d, es);
      Enabled(l, IdleRuns(execWorks)) ==>
        var l' := Next(l, d, IdleRuns(execWorks));
        && l.inflight == 0 && l'.log == l.log + [ExecTried(0)]
        && (execWorks ==> l'.replaced)
        && (!execWorks ==> l'.upgrade.UpIdle? && !l'.shutdown && l'.timers == l'.idles == 0)
  {
    StartOk();
    LoopRun(Start(), d, before);
    var l0 := Exec(Start(), d, before);
    LoopStep(l0, d, SigUsr2);
    var l1 := Next(l0, d, SigUsr2);
    LoopRun(l1, d, es);
    SealedRun(l1, d, es);
  }

  // ----- what a resume in the middle of a cycle does

  lemma Prepend(l: Loop, d: bool, e: Event, rest: seq<Event>)
    requires Enabled(l, e) && Legal(Next(l, d, e), d, rest)
    ensures Legal(l, d, [e] + rest) && Exec(l, d, [e] + rest) == Exec(Next(l, d, e), d, rest)
  {
    assert ([e] + rest)[1..] == rest;
  }

  /** A resume between ready and exec lets a request in, and the exec is tried all the same. */
  lemma ExecWithRequestInFlight() returns (es: seq<Event>)
    ensures Legal(Start(), true, es)
    ensures var l := Exec(Start(), true, es); l.replaced && |l.log| == 4 && l.log[3] == ExecTried(1)
  {
    var l1 := Loop(0, true, map[], 0, Draining, 1, 0, false, []);
    var l2 := Loop(0, true, map[], 0, Ready, 0, 1, false, []);
    var l3 := Loop(0, true, map[0 := Conn(Socket, false)], 1, Ready, 0, 1, false, [Accepted(0, false)]);
    var l4 := Loop(0, false, map[], 1, Ready, 0, 1, false, [Accepted(0, false), Ended(0, Dispatched, NodeResume)]);
    var l5 := Loop(1, false, map[1 := Conn(Socket, true)], 2, Ready, 0, 1, false,
                   [Accepted(0, false), Ended(0, Dispatched, NodeResume), Accepted(1, true)]);
    var comes := Accept(Socket, true, true, true);
    var resumes := ReadDone(0, 1, true, NodeResume, true);
    assert Next(Start(), true, SigUsr2) == l1;
    assert Next(l1, true, TimerFires) == l2;
    assert Next(l2, true, comes) == l3;
    assert Next(l3, true, resumes) == l4;
    assert Next(l4, true, comes) == l5;
    Prepend(l5, true, IdleRuns(true), []);
    es := [IdleRuns(true)] + [];
    Prepend(l4, true, comes, es);
    es := [comes] + es;
    Prepend(l3, true, resumes, es);
    es := [resumes] + es;
    Prepend(l2, true, comes, es);
    es := [comes] + es;
    Prepend(l1, true, TimerFires, es);
    es := [TimerFires] + es;
    Prepend(Start(), true, SigUsr2, es);
    es := [SigUsr2] + es;
  }

  /** What could go wrong from here: a stretch without reopening that ends ready with requests in flight. */
  ghost predicate ExecIsClear(l: Loop, d: bool) {
    forall es | Legal(l, d, es) && NoReopening(l, d, es) && Exec(l, d, es).upgrade.Ready? ::
      Exec(l, d, es).inflight == 0
  }

  /** With admission open, a single accept is enough. */
  lemma OpenGateAdmits(l: Loop, d: bool)
    requires LoopInv(l) && l.upgrade.Ready? && l.inflight == 0 && !l.shutdown
    ensures !ExecIsClear(l, d)
  {
    var comes := Accept(Socket, true, true, true);
    Prepend(l, d, comes, []);
    var es := [comes] + [];
    assert es[1..] == [] && NoReopening(l, d, es);
    assert Exec(l, d, es).upgrade.Ready? && Exec(l, d, es).inflight == 1;
  }

  /**
   Exactly when an exec can interrupt nothing: from any reachable state that is
   ready with nothing in flight, every stretch in which nobody reopens admission
   and that still ends ready has nothing in flight, if and only if the flag is
   set at that state, that is, no resume has come since the cycle shut the gate.
   */
  lemma ExecClearExactly(d: bool, before: seq<Event>)
    requires Legal(Start(), d, before)
    requires Exec(Start(), d, before).upgrade.Ready? && Exec(Start(), d, before).inflight == 0
    ensures ExecIsClear(Exec(Start(), d, before), d) <==> Exec(Start(), d, before).shutdown
  {
    var l := Exec(Start(), d, before);
    StartOk();
    LoopRun(Start(), d, before);
    if l.shutdown {
      forall es | Legal(l, d, es) && NoReopening(l, d, es) && Exec(l, d, es).upgrade.Ready?
        ensures Exec(l, d, es).inflight == 0
      {
        SealedRun(l, d, es);
      }
    } else {
      OpenGateAdmits(l, d);
    }
  }

  // ----- who is served

  /** Bytes came, there is a dispatcher, and on the ring transport the socket could be wrapped. */
  predicate Readable(via: Transport, d: bool, bytes: int, wrapped: bool) {
    bytes > 0 && d && (via.Uring? ==> wrapped)
  }

  /** What a completed read adds to the log, told by the token, the method and whether there was something to serve. */
  lemma ReadOutcome(l: Loop, d: bool, id: nat, bytes: int, wrapped: bool, req: Request, allowed: bool)
    requires Enabled(l, ReadDone(id, bytes, wrapped, req, allowed))
    ensures var c := l.conns[id];
      var l' := Next(l, d, ReadDone(id, bytes, wrapped, req, allowed));
      && |l'.log| == |l.log| + (if c.held then 2 else 1) && l.log <= l'.log
      && l'.log[|l.log|].Ended? && l'.log[|l.log|].id == id && l'.log[|l.log|].req == req
      && (c.held ==> l'.log[|l.log| + 1] == Returned(id))
      && (Readable(c.via, d, bytes, wrapped) ==>
            l'.log[|l.log|].outcome == if c.held || req.NodeResume? then Dispatched else Rejected)
      && (!Readable(c.via, d, bytes, wrapped) ==>
            l'.log[|l.log|].outcome ==
            if !c.held && (c.via.Socket? || (bytes > 0 && wrapped)) then Rejected else Closed)
  {
  }

  /**
   Who gets in: only root, and on the ring transport only an arrival. Such a
   connection is numbered and logged, with a token exactly when the flag is
   clear, and waits to be read unless its read could not be submitted.
   */
  lemma AcceptOutcome(l: Loop, d: bool, via: Transport, arrived: bool, root: bool, submitted: bool)
    requires !l.replaced
    ensures var l' := Next(l, d, Accept(via, arrived, root, submitted));
      if !root || (via.Uring? && !arrived) then l' == l
      else
        && l'.nextId == l.nextId + 1 && |l'.log| > |l.log| && l.log <= l'.log
        && l'.log[|l.log|] == Accepted(l.nextId, !l.shutdown)
        && if via.Uring? && !submitted then
             && l'.conns == l.conns - {l.nextId} && l'.inflight == l.inflight
             && |l'.log| > |l.log| + 1 && l'.log[|l.log| + 1] == Ended(l.nextId, Closed, Unparsable)
           else
             && l'.conns == l.conns[l.nextId := Conn(via, !l.shutdown)] && |l'.log| == |l.log| + 1
             && l'.inflight == l.inflight + (if l.shutdown then 0 else 1)
  {
    assert l.conns[l.nextId := Conn(via, !l.shutdown)] - {l.nextId} == l.conns - {l.nextId};
  }

  /** The log only grows. */
  lemma {:induction false} LogGrows(l: Loop, d: bool, es: seq<Event>)
    requires Legal(l, d, es)
    ensures l.log <= Exec(l, d, es).log
    decreases |es|
  {
    if es != [] {
      assert l.log <= Next(l, d, es[0]).log;
      LogGrows(Next(l, d, es[0]), d, es[1..]);
    }
  }

  /** While a connection waits to be read, nothing about it changes; once gone, its number does not come back. */
  lemma {:induction false} ConnStays(l: Loop, d: bool, es: seq<Event>, id: nat)
    requires Legal(l, d, es) && id < l.nextId && id in Exec(l, d, es).conns
    ensures id in l.conns && Exec(l, d, es).conns[id] == l.conns[id]
    decreases |es|
  {
    if es != [] {
      ConnStays(Next(l, d, es[0]), d, es[1..], id);
    }
  }

  /** Two outcomes of one connection cannot stand in the log. */
  lemma OneOutcome(l: Loop, id: nat, i: nat, j: nat)
    requires TokensOk(l) && i < |l.log| && j < |l.log|
    requires l.log[i].Ended? && l.log[j].Ended? && l.log[i].id == l.log[j].id == id
    ensures i == j
  {
    assert AccountOk(l, id);
    if i < j {
      SumAtLeastTwo(EndedTimes(id), l.log, i, j);
    } else if j < i {
      SumAtLeastTwo(EndedTimes(id), l.log, j, i);
    }
  }

  /**
   Exactly who is served, over every run of both transports with a dispatcher:
   a connection that came in while the flag was clear, or asks to resume, and
   whose read brings bytes, is dispatched; any other such read is rejected.
   Whatever happens in between and afterwards, that is what the log says.
   */
  lemma ServedExactly(before: seq<Event>, via: Transport, mid: seq<Event>,
                      bytes: int, req: Request, allowed: bool, after: seq<Event>)
    requires Legal(Start(), true, before) && !Exec(Start(), true, before).replaced && bytes > 0
    requires var l0 := Exec(Start(), true, before);
      var l1 := Next(l0, true, Accept(via, true, true, true));
      && Legal(l1, true, mid)
      && Enabled(Exec(l1, true, mid), ReadDone(l0.nextId, bytes, true, req, allowed))
      && Legal(Next(Exec(l1, true, mid), true, ReadDone(l0.nextId, bytes, true, req, allowed)), true, after)
    ensures var l0 := Exec(Start(), true, before);
      var l2 := Exec(Next(l0, true, Accept(via, true, true, true)), true, mid);
      var l4 := Exec(Next(l2, true, ReadDone(l0.nextId, bytes, true, req, allowed)), true, after);
      && (Ended(l0.nextId, Dispatched, req) in l4.log <==> !l0.shutdown || req.NodeResume?)
      && (Ended(l0.nextId, Rejected, req) in l4.log <==> l0.shutdown && !req.NodeResume?)
  {
    hide TokensOk, GateOk, AcceptLogged, CycleOk;
    var l0 := Exec(Start(), true, before);
    var comes := Accept(via, true, true, true);
    var l1 := Next(l0, true, comes);
    var l2 := Exec(l1, true, mid);
    var id := l0.nextId;
    var read := ReadDone(id, bytes, true, req, allowed);
    var l3 := Next(l2, true, read);
    var l4 := Exec(l3, true, after);
    assert l1.conns[id] == Conn(via, !l0.shutdown) && l1.nextId == id + 1;
    ConnStays(l1, true, mid, id);
    ReadOutcome(l2, true, id, bytes, true, req, allowed);
    LogGrows(l3, true, after);
    StartOk();
    LoopRun(Start(), true, before);
    LoopStep(l0, true, comes);
    LoopRun(l1, true, mid);
    LoopStep(l2, true, read);
    LoopRun(l3, true, after);
    var at := |l2.log|;
    assert l4.log[at] == l3.log[at];
    forall j | 0 <= j < |l4.log| && l4.log[j].Ended? && l4.log[j].id == id ensures j == at {
      OneOutcome(l4, id, at, j);
    }
  }

  // ----- the flag and the cycle, event by event

  /** Exactly when the flag is set after an event. */
  lemma FlagMoves(l: Loop, d: bool, e: Event)
    requires Enabled(l, e)
    ensures Next(l, d, e).shutdown <==>
      match e
      case SigTerm => true
      case SigUsr2 => l.shutdown || l.upgrade.UpIdle?
      case IdleRuns(execWorks) => execWorks && l.shutdown
      case TimerFires => l.shutdown
      case Accept(_, _, _, _) => l.shutdown
      case ReadDone(id, bytes, wrapped, req, allowed) =>
        var c := l.conns[id];
        if Readable(c.via, d, bytes, wrapped) && allowed && req.NodeResume? then false
        else l.shutdown || (Readable(c.via, d, bytes, wrapped) && allowed && c.held && req.NodeDrain?)
  {
  }

  /** Exactly how an event moves the cycle and its pending sources. */
  lemma CycleMoves(l: Loop, d: bool, e: Event)
    requires Enabled(l, e)
    ensures var l' := Next(l, d, e);
      if e.SigUsr2? && l.upgrade.UpIdle? then l'.upgrade.Draining? && l'.timers == l.timers + 1 && l'.idles == l.idles
      else if e.TimerFires? && l.inflight == 0 then
        l'.upgrade.Ready? && l'.timers == l.timers - 1 && l'.idles == l.idles + 1
      else if e.IdleRuns? then
        && l'.idles == l.idles - 1 && l'.timers == l.timers && l'.replaced == e.execWorks
        && l'.log == l.log + [ExecTried(l.inflight)] && (if e.execWorks then l'.upgrade.Executing? else l'.upgrade.UpIdle?)
      else l'.upgrade == l.upgrade && l'.timers == l.timers && l'.idles == l.idles && !l'.replaced
  {
  }

  /** Read every connection that holds a token; nobody else comes in. */
  lemma {:induction false} ReadOut(l: Loop, d: bool) returns (es: seq<Event>)
    requires LoopInv(l) && !l.replaced
    ensures Legal(l, d, es) && Exec(l, d, es).inflight == 0 && LoopInv(Exec(l, d, es))
    ensures Exec(l, d, es).upgrade == l.upgrade && !Exec(l, d, es).replaced
    decreases |HeldIds(l.conns)|
  {
    hide GateOk, AcceptLogged, CycleOk;
    if HeldIds(l.conns) == {} {
      es := [];
    } else {
      var id :| id in HeldIds(l.conns);
      var read := ReadDone(id, 0, true, Unparsable, false);
      var l' := Next(l, d, read);
      LoopStep(l, d, read);
      assert HeldIds(l'.conns) == HeldIds(l.conns) - {id};
      var rest := ReadOut(l', d);
      Prepend(l, d, read, rest);
      es := [read] + rest;
    }
  }

  /**
   A reload can always complete: from every reachable state that is draining,
   once the connections holding tokens are read, the next timer makes the cycle
   ready and its idle tries the exec with nothing in flight.
   */
  lemma ReloadCompletes(d: bool, before: seq<Event>, execWorks: bool) returns (es: seq<Event>)
    requires Legal(Start(), d, before) && Exec(Start(), d, before).upgrade.Draining?
    ensures var l := Exec(Start(), d, before);
      && Legal(l, d, es)
      && var l' := Exec(l, d, es);
         && |l'.log| > 0 && l'.log[|l'.log| - 1] == ExecTried(0)
         && l'.replaced == execWorks
         && (!execWorks ==> l'.upgrade.UpIdle? && !l'.shutdown)
  {
    hide TokensOk, GateOk, AcceptLogged;
    var l := Exec(Start(), d, before);
    StartOk();
    LoopRun(Start(), d, before);
    var emptied := ReadOut(l, d);
    var l1 := Exec(l, d, emptied);
    var l2 := Next(l1, d, TimerFires);
    LoopStep(l1, d, TimerFires);
    Prepend(l2, d, IdleRuns(execWorks), []);
    Prepend(l1, d, TimerFires, [IdleRuns(execWorks)] + []);
    var last := [TimerFires] + ([IdleRuns(execWorks)] + []);
    ExecConcat(l, d, emptied, last);
    es := emptied + last;
  }

  lemma {:induction false} ExecConcat(l: Loop, d: bool, first: seq<Event>, second: seq<Event>)
    requires Legal(l, d, first) && Legal(Exec(l, d, first), d, second)
    ensures Legal(l, d, first + second) && Exec(l, d, first + second) == Exec(Exec(l, d, first), d, second)
    decreases |first|
  {
    if first == [] {
      assert first + second == second;
    } else {
      assert (first + second)[1..] == first[1..] + second;
      ExecConcat(Next(l, d, first[0]), d, first[1..], second);
    }
  }
}
