// The custody store under any number of processes and threads. Every call is taken apart into
// locking, loading, deciding, writing and unlocking, and a process may die between any two of these.
// Whole calls still take effect one at a time, each at one moment between its start and its return.
module CustodyLocking {
  import opened Prelude
  import opened CustodyStore
  import opened CustodyRuns

  datatype Tid = Tid(process: nat, thread: nat)

  // Where a running call stands. A thread that runs no call has no entry.
  datatype Phase =
    | WantMutex(ticket: nat, call: Call)
    | WantWriter(ticket: nat, call: Call)
    | Ready(ticket: nat, call: Call)
    | Loaded(ticket: nat, call: Call, snapshot: Store)
    | Saving(ticket: nat, call: Call, env: Env, next: Store, reply: Reply)
    | HasLease(ticket: nat, call: Call, reply: Reply)
    | HasMutex(ticket: nat, call: Call, reply: Reply)

  // The file, the identities drawn so far, the next ticket, one mutex per process, the writer lease
  // all processes share, and the running calls.
  datatype Machine = Machine(
    file: Store,
    drawn: set<string>,
    tickets: nat,
    mutex: map<nat, Tid>,
    writer: Option<Tid>,
    threads: map<Tid, Phase>)

  datatype Action =
    | Invoke(t: Tid, call: Call)
    | TakeMutex(t: Tid)
    | TakeWriter(t: Tid)
    | LeaseFails(t: Tid)
    | Load(t: Tid)
    | LoadFails(t: Tid)
    | Decide(t: Tid, env: Env)
    | Save(t: Tid)
    | SaveFails(t: Tid)
    | FreeWriter(t: Tid)
    | Return(t: Tid)
    | Crash(process: nat)

  // The transaction query takes the process mutex only; every other call also takes the writer lease.
  predicate Reader(call: Call) { call.Query? }

  predicate HoldsMutex(p: Phase) { !p.WantMutex? }

  predicate HoldsWriter(p: Phase) {
    p.HasLease? || ((p.Ready? || p.Loaded? || p.Saving?) && !Reader(p.call))
  }

  // A query does not look at its surroundings.
  const NO_ENV := Env("", [], "", "", 0)

  // ---------------------------------------------------------------------------
  // Steps
  // ---------------------------------------------------------------------------

  predicate Enabled(m: Machine, a: Action) {
    match a
    case Invoke(t, _) => t !in m.threads
    case TakeMutex(t) => t in m.threads && m.threads[t].WantMutex? && t.process !in m.mutex
    case TakeWriter(t) => t in m.threads && m.threads[t].WantWriter? && m.writer.None?
    case LeaseFails(t) => t in m.threads && m.threads[t].WantWriter?
    case Load(t) => t in m.threads && m.threads[t].Ready?
    case LoadFails(t) => t in m.threads && m.threads[t].Ready?
    case Decide(t, env) =>
      && t in m.threads && m.threads[t].Loaded?
      && (Creates(m.threads[t].snapshot, m.threads[t].call) ==> FreshDraw(m.drawn, env))
    case Save(t) => t in m.threads && m.threads[t].Saving?
    case SaveFails(t) => t in m.threads && m.threads[t].Saving?
    case FreeWriter(t) => t in m.threads && m.threads[t].HasLease?
    case Return(t) => t in m.threads && m.threads[t].HasMutex?
    case Crash(_) => true
  }

  function Goto(m: Machine, t: Tid, p: Phase): Machine { m.(threads := m.threads[t := p]) }

  // Leaving the protected section with an answer.
  function Leaving(p: Phase, reply: Reply): Phase {
    if Reader(p.call) then HasMutex(p.ticket, p.call, reply) else HasLease(p.ticket, p.call, reply)
  }

  function Next(c: Crypto, m: Machine, a: Action): Machine
    requires Enabled(m, a)
  {
    match a
    case Invoke(t, call) => Goto(m, t, WantMutex(m.tickets, call)).(tickets := m.tickets + 1)
    case TakeMutex(t) =>
      var p := m.threads[t];
      Goto(m, t, if Reader(p.call) then Ready(p.ticket, p.call) else WantWriter(p.ticket, p.call))
      .(mutex := m.mutex[t.process := t])
    case TakeWriter(t) =>
      Goto(m, t, Ready(m.threads[t].ticket, m.threads[t].call)).(writer := Some(t))
    case LeaseFails(t) => Goto(m, t, HasMutex(m.threads[t].ticket, m.threads[t].call, Failed(Io)))
    case Load(t) => Goto(m, t, Loaded(m.threads[t].ticket, m.threads[t].call, m.file))
    case LoadFails(t) => Goto(m, t, Leaving(m.threads[t], Failed(Io)))
    case Decide(t, env) =>
      var p := m.threads[t];
      var out := Apply(c, p.snapshot, p.call, env);
      if out.writes then
        Goto(m, t, Saving(p.ticket, p.call, env, out.store, out.reply))
        .(drawn := m.drawn + if Creates(p.snapshot, p.call) then {env.txid} else {})
      else Goto(m, t, Leaving(p, out.reply))
    case Save(t) => Goto(m, t, Leaving(m.threads[t], m.threads[t].reply)).(file := m.threads[t].next)
    case SaveFails(t) => Goto(m, t, Leaving(m.threads[t], Failed(Io)))
    case FreeWriter(t) =>
      Goto(m, t, HasMutex(m.threads[t].ticket, m.threads[t].call, m.threads[t].reply)).(writer := None)
    case Return(t) => m.(threads := m.threads - {t}, mutex := m.mutex - {t.process})
    case Crash(q) =>
      m.(threads := map t | t in m.threads && t.process != q :: m.threads[t],
         mutex := m.mutex - {q},
         writer := if m.writer.Some? && m.writer.value.process == q then None else m.writer)
  }

  // The call, if any, that takes effect in one step: a refusal when it is decided, a change when it
  // is written, a query when it loads.
  function Effect(c: Crypto, m: Machine, a: Action): seq<Event>
    requires Enabled(m, a)
  {
    match a
    case Load(t) =>
      var p := m.threads[t];
      if Reader(p.call) then [Event(p.ticket, p.call, NO_ENV, Apply(c, m.file, p.call, NO_ENV).reply)] else []
    case Decide(t, env) =>
      var p := m.threads[t];
      var out := Apply(c, p.snapshot, p.call, env);
      if !Reader(p.call) && !out.writes then [Event(p.ticket, p.call, env, out.reply)] else []
    case Save(t) =>
      var p := m.threads[t];
      [Event(p.ticket, p.call, p.env, p.reply)]
    case _ => []
  }

  // ---------------------------------------------------------------------------
  // Runs
  // ---------------------------------------------------------------------------

  ghost predicate Quiet(m: Machine) {
    && m.threads == map[] && m.mutex == map[] && m.writer.None?
    && Inv(State(m.file, m.drawn))
  }

  predicate ActAt(c: Crypto, ms: seq<Machine>, acts: seq<Action>, i: nat)
    requires i < |acts| && |ms| == |acts| + 1
  {
    Enabled(ms[i], acts[i]) && ms[i + 1] == Next(c, ms[i], acts[i])
  }

  ghost predicate Trace(c: Crypto, ms: seq<Machine>, acts: seq<Action>) {
    && |ms| == |acts| + 1 && Quiet(ms[0])
    && forall i :: 0 <= i < |acts| ==> ActAt(c, ms, acts, i)
  }

  // The effects of the first i steps, in order.
  ghost function Log(c: Crypto, ms: seq<Machine>, acts: seq<Action>, i: nat): seq<Event>
    requires Trace(c, ms, acts) && i <= |acts|
  {
    if i == 0 then [] else
      assert ActAt(c, ms, acts, i - 1);
      Log(c, ms, acts, i - 1) + Effect(c, ms[i - 1], acts[i - 1])
  }

  // The atomic machine driven by a log.
  function After(c: Crypto, s: State, e: Event): State {
    State(Apply(c, s.store, e.call, e.env).store,
          s.minted + if Creates(s.store, e.call) then {e.env.txid} else {})
  }

  function States(c: Crypto, s: State, log: seq<Event>): (states: seq<State>)
    ensures |states| == |log| + 1 && states[0] == s
  {
    if log == [] then [s] else
      var front := States(c, s, log[..|log| - 1]);
      front + [After(c, front[|front| - 1], log[|log| - 1])]
  }

  function Start(m: Machine): State { State(m.file, m.drawn) }

  // The events of one ticket.
  function Entries(log: seq<Event>, ticket: nat): seq<Event> {
    if log == [] then []
    else Entries(log[..|log| - 1], ticket)
         + if log[|log| - 1].ticket == ticket then [log[|log| - 1]] else []
  }

  // ---------------------------------------------------------------------------
  // The invariant that ties both machines together
  // ---------------------------------------------------------------------------

  // A call that has not taken effect has no event; one that has, has exactly one, with its answer;
  // one that failed has none.
  ghost predicate Told(log: seq<Event>, ticket: nat, call: Call, reply: Reply) {
    var es := Entries(log, ticket);
    if reply == Failed(Io) then es == []
    else |es| == 1 && es[0].call == call && es[0].reply == reply
  }

  ghost predicate PhaseOk(c: Crypto, m: Machine, minted: set<string>, log: seq<Event>, p: Phase) {
    match p
    case WantMutex(k, _) => Entries(log, k) == []
    case WantWriter(k, call) => Entries(log, k) == [] && !Reader(call)
    case Ready(k, _) => Entries(log, k) == []
    case Loaded(k, call, snapshot) =>
      if Reader(call) then Entries(log, k) == [Event(k, call, NO_ENV, Apply(c, snapshot, call, NO_ENV).reply)]
      else Entries(log, k) == [] && snapshot == m.file
    case Saving(k, call, env, next, reply) =>
      && !Reader(call) && Entries(log, k) == []
      && Apply(c, m.file, call, env) == Outcome(next, reply, true)
      && (Creates(m.file, call) ==> FreshDraw(minted, env) && env.txid in m.drawn)
    case HasLease(k, call, reply) => !Reader(call) && Told(log, k, call, reply)
    case HasMutex(k, call, reply) => Told(log, k, call, reply)
  }

  ghost predicate Locks(m: Machine) {
    && (forall t :: t in m.threads && HoldsMutex(m.threads[t]) ==> t.process in m.mutex && m.mutex[t.process] == t)
    && (forall t :: t in m.threads && HoldsWriter(m.threads[t]) ==> m.writer == Some(t))
  }

  ghost predicate Tickets(m: Machine, log: seq<Event>) {
    && (forall t :: t in m.threads ==> m.threads[t].ticket < m.tickets)
    && (forall t, u :: t in m.threads && u in m.threads && t != u ==> m.threads[t].ticket != m.threads[u].ticket)
    && (forall i :: 0 <= i < |log| ==> log[i].ticket < m.tickets)
  }

  ghost predicate Related(c: Crypto, m: Machine, s: State, log: seq<Event>) {
    && s.store == m.file && s.minted <= m.drawn
    && Locks(m) && Tickets(m, log)
    && forall t :: t in m.threads ==> PhaseOk(c, m, s.minted, log, m.threads[t])
  }

  // ---------------------------------------------------------------------------
  // One step keeps it
  // ---------------------------------------------------------------------------

  lemma EntriesOfAppend(log: seq<Event>, e: Event, k: nat)
    ensures Entries(log + [e], k) == Entries(log, k) + if e.ticket == k then [e] else []
  {
    assert (log + [e])[..|log|] == log;
  }

  lemma {:induction false} NoEntriesAbove(log: seq<Event>, bound: nat, k: nat)
    requires forall i :: 0 <= i < |log| ==> log[i].ticket < bound
    requires bound <= k
    ensures Entries(log, k) == []
  {
    if log != [] { NoEntriesAbove(log[..|log| - 1], bound, k); }
  }

  // The thread a step moves.
  predicate Moves(a: Action, t: Tid) { !a.Crash? && a.t == t }

  lemma LocksKept(c: Crypto, m: Machine, a: Action)
    requires Locks(m) && Enabled(m, a)
    ensures Locks(Next(c, m, a))
  {
  }

  // A thread's ticket is the one it had, or the next one where it has just been invoked.
  lemma TicketOf(c: Crypto, m: Machine, a: Action, t: Tid)
    requires Enabled(m, a) && t in Next(c, m, a).threads
    ensures if a.Invoke? && a.t == t then Next(c, m, a).threads[t].ticket == m.tickets
            else t in m.threads && m.threads[t].ticket == Next(c, m, a).threads[t].ticket
    ensures Next(c, m, a).tickets == if a.Invoke? then m.tickets + 1 else m.tickets
  {
    if !(a.Invoke? && a.t == t) { StaysItself(c, m, a, t); }
  }

  lemma TicketsKept(c: Crypto, m: Machine, a: Action, log: seq<Event>)
    requires Tickets(m, log) && Enabled(m, a)
    ensures Tickets(Next(c, m, a), log + Effect(c, m, a))
  {
    var m', log' := Next(c, m, a), log + Effect(c, m, a);
    assert m.tickets <= m'.tickets;
    forall t | t in m'.threads ensures m'.threads[t].ticket < m'.tickets { TicketOf(c, m, a, t); }
    forall t, u | t in m'.threads && u in m'.threads && t != u ensures m'.threads[t].ticket != m'.threads[u].ticket {
      TicketOf(c, m, a, t);
      TicketOf(c, m, a, u);
    }
    forall i | 0 <= i < |log'| ensures log'[i].ticket < m'.tickets {
      if i >= |log| { EffectIsItsCall(c, m, a, log'[i]); }
    }
  }

  lemma BystanderKeeps(c: Crypto, m: Machine, a: Action, t: Tid)
    requires Enabled(m, a) && t in Next(c, m, a).threads && !Moves(a, t)
    ensures t in m.threads && Next(c, m, a).threads[t] == m.threads[t]
    ensures m.drawn <= Next(c, m, a).drawn
    ensures !a.Save? ==> Next(c, m, a).file == m.file
  {
  }

  // A phase whose thread does not move stays in order as long as its entries stay the same and,
  // if it holds the writer lease, the file does.
  lemma BystanderOk(c: Crypto, m: Machine, m': Machine, minted: set<string>, minted': set<string>,
      log: seq<Event>, log': seq<Event>, p: Phase)
    requires PhaseOk(c, m, minted, log, p) && Entries(log', p.ticket) == Entries(log, p.ticket)
    requires m.drawn <= m'.drawn
    requires HoldsWriter(p) ==> m'.file == m.file && minted' == minted
    ensures PhaseOk(c, m', minted', log', p)
  {
  }

  function AfterAll(c: Crypto, s: State, es: seq<Event>): State
    requires |es| <= 1
  {
    if es == [] then s else After(c, s, es[0])
  }

  // What takes effect in a step is one step of the atomic machine, and the file follows it.
  lemma EffectIsAtomic(c: Crypto, m: Machine, s: State, log: seq<Event>, a: Action)
    requires Related(c, m, s, log) && Enabled(m, a)
    ensures |Effect(c, m, a)| <= 1
    ensures var es := Effect(c, m, a);
      && (es != [] ==> Step(c, s, es[0], After(c, s, es[0])))
      && AfterAll(c, s, es).store == Next(c, m, a).file
      && AfterAll(c, s, es).minted <= Next(c, m, a).drawn
  {
    if !a.Crash? && a.t in m.threads { assert PhaseOk(c, m, s.minted, log, m.threads[a.t]); }
    match a {
      case Load(t) =>
      case Decide(t, env) =>
      case Save(t) =>
      case _ =>
    }
  }

  lemma MoverOk(c: Crypto, m: Machine, s: State, log: seq<Event>, a: Action, t: Tid)
    requires Related(c, m, s, log) && Enabled(m, a) && Moves(a, t) && t in Next(c, m, a).threads
    requires |Effect(c, m, a)| <= 1
    ensures var es := Effect(c, m, a);
      PhaseOk(c, Next(c, m, a), AfterAll(c, s, es).minted, log + es, Next(c, m, a).threads[t])
  {
    var es := Effect(c, m, a);
    if a.Invoke? {
      assert log + es == log;
      NoEntriesAbove(log, m.tickets, m.tickets);
    } else {
      assert PhaseOk(c, m, s.minted, log, m.threads[t]);
      if es == [] {
        assert log + es == log;
        SilentMoverOk(c, m, s, log, a, t);
      } else {
        assert es == [es[0]];
        LoudMoverOk(c, m, s, log, a, t, es[0]);
      }
    }
  }

  lemma LoudMoverOk(c: Crypto, m: Machine, s: State, log: seq<Event>, a: Action, t: Tid, e: Event)
    requires Enabled(m, a) && !a.Invoke? && Moves(a, t) && t in Next(c, m, a).threads
    requires Effect(c, m, a) == [e] && PhaseOk(c, m, s.minted, log, m.threads[t])
    ensures PhaseOk(c, Next(c, m, a), After(c, s, e).minted, log + [e], Next(c, m, a).threads[t])
  {
    var p := m.threads[t];
    match a {
      case Load(_) => EntriesOfAppend(log, e, p.ticket);
      case Decide(_, env) =>
        NeverIo(c, p.snapshot, p.call, env);
        AnsweredOk(c, Next(c, m, a), After(c, s, e).minted, log, p, e);
      case Save(_) =>
        NeverIo(c, m.file, p.call, p.env);
        AnsweredOk(c, Next(c, m, a), After(c, s, e).minted, log, p, e);
    }
  }

  lemma NeverIo(c: Crypto, store: Store, call: Call, env: Env)
    ensures Apply(c, store, call, env).reply != Failed(Io)
  {
  }

  // A call that held the lease and has just taken effect.
  lemma AnsweredOk(c: Crypto, m: Machine, minted: set<string>, log: seq<Event>, p: Phase, e: Event)
    requires Entries(log, p.ticket) == [] && e.ticket == p.ticket && e.call == p.call
    requires e.reply != Failed(Io) && !Reader(p.call)
    ensures PhaseOk(c, m, minted, log + [e], HasLease(p.ticket, p.call, e.reply))
  {
    EntriesOfAppend(log, e, p.ticket);
  }

  lemma SilentMoverOk(c: Crypto, m: Machine, s: State, log: seq<Event>, a: Action, t: Tid)
    requires Related(c, m, s, log) && Enabled(m, a) && !a.Invoke? && Moves(a, t) && t in Next(c, m, a).threads
    requires Effect(c, m, a) == [] && PhaseOk(c, m, s.minted, log, m.threads[t])
    ensures PhaseOk(c, Next(c, m, a), s.minted, log, Next(c, m, a).threads[t])
  {
    match a
    case Load(_) => assert !Reader(m.threads[t].call);
    case Decide(_, _) =>
    case SaveFails(_) =>
    case _ =>
  }

  // Every step keeps the two machines related.
  lemma StepKeepsRelated(c: Crypto, m: Machine, s: State, log: seq<Event>, a: Action)
    requires Related(c, m, s, log) && Enabled(m, a)
    ensures |Effect(c, m, a)| <= 1
    ensures Related(c, Next(c, m, a), AfterAll(c, s, Effect(c, m, a)), log + Effect(c, m, a))
  {
    var m', es := Next(c, m, a), Effect(c, m, a);
    EffectIsAtomic(c, m, s, log, a);
    LocksKept(c, m, a);
    TicketsKept(c, m, a, log);
    forall t | t in m'.threads ensures PhaseOk(c, m', AfterAll(c, s, es).minted, log + es, m'.threads[t]) {
      if Moves(a, t) {
        MoverOk(c, m, s, log, a, t);
      } else {
        OtherThreadOk(c, m, s, log, a, t);
      }
    }
  }

  lemma OtherThreadOk(c: Crypto, m: Machine, s: State, log: seq<Event>, a: Action, t: Tid)
    requires Related(c, m, s, log) && Enabled(m, a) && !Moves(a, t) && t in Next(c, m, a).threads
    requires |Effect(c, m, a)| <= 1
    ensures var es := Effect(c, m, a);
      PhaseOk(c, Next(c, m, a), AfterAll(c, s, es).minted, log + es, Next(c, m, a).threads[t])
  {
    var m', es := Next(c, m, a), Effect(c, m, a);
    BystanderKeeps(c, m, a, t);
    var p := m.threads[t];
    assert PhaseOk(c, m, s.minted, log, p);
    if es == [] {
      assert log + es == log;
      BystanderOk(c, m, m', s.minted, s.minted, log, log, p);
    } else {
      assert log + es == log + [es[0]];
      EntriesOfAppend(log, es[0], p.ticket);
      assert es[0].ticket == m.threads[a.t].ticket;
      if HoldsWriter(p) { OnlyWriterChanges(c, m, s, log, a, t); }
      BystanderOk(c, m, m', s.minted, AfterAll(c, s, es).minted, log, log + es, p);
    }
  }

  // While one thread holds the writer lease nobody else changes the file or installs an identity.
  lemma OnlyWriterChanges(c: Crypto, m: Machine, s: State, log: seq<Event>, a: Action, t: Tid)
    requires Related(c, m, s, log) && Enabled(m, a) && !Moves(a, t) && t in m.threads && HoldsWriter(m.threads[t])
    ensures Next(c, m, a).file == m.file
    ensures forall e :: Effect(c, m, a) == [e] ==> After(c, s, e).minted == s.minted
  {
    if !a.Crash? && a.t in m.threads {
      assert PhaseOk(c, m, s.minted, log, m.threads[a.t]);
      assert !HoldsWriter(m.threads[a.t]);
    }
  }

  // ---------------------------------------------------------------------------
  // Every run
  // ---------------------------------------------------------------------------

  // The run of a log and one more step of the machine.
  ghost predicate RunRelated(c: Crypto, start: State, m: Machine, log: seq<Event>) {
    var states := States(c, start, log);
    Run(c, states, log) && Related(c, m, states[|log|], log)
  }

  lemma StepKeepsRun(c: Crypto, start: State, m: Machine, log: seq<Event>, a: Action)
    requires RunRelated(c, start, m, log) && Enabled(m, a)
    ensures RunRelated(c, start, Next(c, m, a), log + Effect(c, m, a))
  {
    var states, es := States(c, start, log), Effect(c, m, a);
    StepKeepsRelated(c, m, states[|log|], log, a);
    if es == [] {
      assert log + es == log;
    } else {
      EffectIsAtomic(c, m, states[|log|], log, a);
      assert log + es == log + [es[0]];
      RunGrows(c, start, Next(c, m, a), log, es[0]);
    }
  }

  lemma RunGrows(c: Crypto, start: State, m: Machine, log: seq<Event>, e: Event)
    requires var s := States(c, start, log)[|log|];
      Run(c, States(c, start, log), log) && Step(c, s, e, After(c, s, e)) && Related(c, m, After(c, s, e), log + [e])
    ensures RunRelated(c, start, m, log + [e])
  {
    var states := States(c, start, log);
    StatesGrow(c, start, log, e);
    RunExtends(c, states, log, e, After(c, states[|log|], e));
  }

  lemma StatesGrow(c: Crypto, start: State, log: seq<Event>, e: Event)
    ensures States(c, start, log + [e]) == States(c, start, log) + [After(c, States(c, start, log)[|log|], e)]
  {
    assert (log + [e])[..|log|] == log;
  }

  lemma {:induction false} RelatedAlong(c: Crypto, ms: seq<Machine>, acts: seq<Action>, i: nat)
    requires Trace(c, ms, acts) && i <= |acts|
    ensures RunRelated(c, Start(ms[0]), ms[i], Log(c, ms, acts, i))
  {
    if i > 0 {
      RelatedAlong(c, ms, acts, i - 1);
      assert ActAt(c, ms, acts, i - 1);
      StepKeepsRun(c, Start(ms[0]), ms[i - 1], Log(c, ms, acts, i - 1), acts[i - 1]);
    }
  }

  // Refinement: under every interleaving and every pattern of crashes the effects form a run of the
  // atomic machine from the same starting store, and the file is always that run's store.
  lemma RefinesAtomicMachine(c: Crypto, ms: seq<Machine>, acts: seq<Action>, i: nat)
    requires Trace(c, ms, acts) && i <= |acts|
    ensures var log := Log(c, ms, acts, i);
      && Run(c, States(c, Start(ms[0]), log), log)
      && States(c, Start(ms[0]), log)[|log|].store == ms[i].file
  {
    RelatedAlong(c, ms, acts, i);
  }

  // At most one thread is inside the protected section, over all processes.
  lemma WritersExclude(c: Crypto, ms: seq<Machine>, acts: seq<Action>, i: nat, t: Tid, u: Tid)
    requires Trace(c, ms, acts) && i <= |acts| && t in ms[i].threads && u in ms[i].threads
    requires HoldsWriter(ms[i].threads[t]) && HoldsWriter(ms[i].threads[u])
    ensures t == u
  {
    RelatedAlong(c, ms, acts, i);
  }

  predicate Live(m: Machine, k: nat) {
    exists t :: t in m.threads && m.threads[t].ticket == k
  }

  // A ticket whose call is over, by return or by crash, takes no effect ever after.
  lemma {:induction false} OverIsOver(c: Crypto, ms: seq<Machine>, acts: seq<Action>, i: nat, j: nat, k: nat)
    requires Trace(c, ms, acts) && i <= j <= |acts| && !Live(ms[i], k) && k < ms[i].tickets
    ensures !Live(ms[j], k) && k < ms[j].tickets
    ensures Entries(Log(c, ms, acts, j), k) == Entries(Log(c, ms, acts, i), k)
  {
    if i < j {
      OverIsOver(c, ms, acts, i, j - 1, k);
      assert ActAt(c, ms, acts, j - 1);
      StaysOver(c, ms[j - 1], acts[j - 1], k);
      var log, es := Log(c, ms, acts, j - 1), Effect(c, ms[j - 1], acts[j - 1]);
      if es == [] { assert log + es == log; } else { EntriesOfAppend(log, es[0], k); }
    }
  }

  lemma StaysOver(c: Crypto, m: Machine, a: Action, k: nat)
    requires Enabled(m, a) && !Live(m, k) && k < m.tickets
    ensures !Live(Next(c, m, a), k) && k < Next(c, m, a).tickets
    ensures Effect(c, m, a) == [] || (|Effect(c, m, a)| == 1 && Effect(c, m, a)[0].ticket != k)
  {
    var m' := Next(c, m, a);
    forall t | t in m'.threads ensures m'.threads[t].ticket != k {
      if t in m.threads { assert m.threads[t].ticket != k; }
    }
  }

  // The thread that owns a ticket keeps it, and its call, until the call is over.
  lemma {:induction false} TicketKeepsCall(c: Crypto, ms: seq<Machine>, acts: seq<Action>, i: nat, j: nat, u: Tid)
    requires Trace(c, ms, acts) && i < j <= |acts| && acts[i].Invoke?
    requires u in ms[j].threads && ms[j].threads[u].ticket == ms[i].tickets
    ensures ms[j].threads[u].call == acts[i].call && u == acts[i].t
  {
    assert ActAt(c, ms, acts, j - 1);
    if i + 1 == j {
      RelatedAlong(c, ms, acts, i);
      assert Tickets(ms[i], Log(c, ms, acts, i));
    } else {
      TicketsGrow(c, ms, acts, i + 1, j - 1);
      assert ActAt(c, ms, acts, i);
      MoverKeepsCall(c, ms[j - 1], acts[j - 1], u);
      TicketKeepsCall(c, ms, acts, i, j - 1, u);
    }
  }

  lemma MoverKeepsCall(c: Crypto, m: Machine, a: Action, u: Tid)
    requires Enabled(m, a) && u in Next(c, m, a).threads && Next(c, m, a).threads[u].ticket < m.tickets
    ensures u in m.threads && m.threads[u].ticket == Next(c, m, a).threads[u].ticket
    ensures m.threads[u].call == Next(c, m, a).threads[u].call
  {
    if !(a.Invoke? && a.t == u) { StaysItself(c, m, a, u); }
  }

  lemma {:induction false} TicketsGrow(c: Crypto, ms: seq<Machine>, acts: seq<Action>, i: nat, j: nat)
    requires Trace(c, ms, acts) && i <= j <= |acts|
    ensures ms[i].tickets <= ms[j].tickets
  {
    if i < j {
      TicketsGrow(c, ms, acts, i, j - 1);
      assert ActAt(c, ms, acts, j - 1);
    }
  }

  // Every running call was invoked, as this call and with this ticket.
  lemma {:induction false} WasInvoked(c: Crypto, ms: seq<Machine>, acts: seq<Action>, j: nat, t: Tid) returns (a: nat)
    requires Trace(c, ms, acts) && j <= |acts| && t in ms[j].threads
    ensures a < j && acts[a] == Invoke(t, ms[j].threads[t].call) && ms[a].tickets == ms[j].threads[t].ticket
  {
    assert ActAt(c, ms, acts, j - 1);
    if acts[j - 1].Invoke? && acts[j - 1].t == t {
      a := j - 1;
    } else {
      StaysItself(c, ms[j - 1], acts[j - 1], t);
      a := WasInvoked(c, ms, acts, j - 1, t);
    }
  }

  lemma StaysItself(c: Crypto, m: Machine, a: Action, t: Tid)
    requires Enabled(m, a) && t in Next(c, m, a).threads && !(a.Invoke? && a.t == t)
    ensures t in m.threads && m.threads[t].ticket == Next(c, m, a).threads[t].ticket
    ensures m.threads[t].call == Next(c, m, a).threads[t].call
  {
  }

  // An effect is that of the moving thread's call.
  lemma EffectIsItsCall(c: Crypto, m: Machine, a: Action, e: Event)
    requires Enabled(m, a) && e in Effect(c, m, a)
    ensures !a.Crash? && a.t in m.threads && e.ticket == m.threads[a.t].ticket && e.call == m.threads[a.t].call
  {
  }

  // Every effect in the log, that of a call that died later included, is that of a call that was invoked
  // before, as that call.
  lemma {:induction false} EffectsWereInvoked(c: Crypto, ms: seq<Machine>, acts: seq<Action>, i: nat, e: Event)
    returns (a: nat)
    requires Trace(c, ms, acts) && i <= |acts| && e in Log(c, ms, acts, i)
    ensures a < i && acts[a].Invoke? && ms[a].tickets == e.ticket && acts[a].call == e.call
  {
    assert ActAt(c, ms, acts, i - 1);
    if e in Log(c, ms, acts, i - 1) {
      a := EffectsWereInvoked(c, ms, acts, i - 1, e);
    } else {
      EffectIsItsCall(c, ms[i - 1], acts[i - 1], e);
      a := WasInvoked(c, ms, acts, i - 1, acts[i - 1].t);
    }
  }

  // A call that has not yet reached its effect.
  predicate Pending(p: Phase) {
    p.WantMutex? || p.WantWriter? || p.Ready? || p.Saving? || (p.Loaded? && !Reader(p.call))
  }

  // What the log says of a running call.
  lemma WhatIsTold(c: Crypto, ms: seq<Machine>, acts: seq<Action>, j: nat, t: Tid)
    requires Trace(c, ms, acts) && j <= |acts| && t in ms[j].threads
    ensures var p := ms[j].threads[t];
      && (p.HasMutex? ==> Told(Log(c, ms, acts, j), p.ticket, p.call, p.reply))
      && (Pending(p) ==> Entries(Log(c, ms, acts, j), p.ticket) == [])
  {
    RelatedAlong(c, ms, acts, j);
    var log := Log(c, ms, acts, j);
    assert PhaseOk(c, ms[j], States(c, Start(ms[0]), log)[|log|].minted, log, ms[j].threads[t]);
  }

  // A return and a crash end the call, and take no effect themselves.
  lemma Ends(c: Crypto, ms: seq<Machine>, acts: seq<Action>, j: nat, t: Tid)
    requires Trace(c, ms, acts) && j < |acts| && t in ms[j].threads
    requires acts[j] == Return(t) || acts[j] == Crash(t.process)
    ensures !Live(ms[j + 1], ms[j].threads[t].ticket) && ms[j].threads[t].ticket < ms[j + 1].tickets
    ensures Log(c, ms, acts, j + 1) == Log(c, ms, acts, j)
    ensures ms[j + 1].file == ms[j].file
  {
    RelatedAlong(c, ms, acts, j);
    var log := Log(c, ms, acts, j);
    assert Tickets(ms[j], log);
    assert ActAt(c, ms, acts, j);
    assert Effect(c, ms[j], acts[j]) == [];
    assert log + [] == log;
  }

  // A call that returns has taken effect exactly once, after it was invoked and before it returned,
  // as the call that was made and with the answer it got; a call that failed on the file or a lease
  // has not taken effect at all. Neither changes later.
  lemma CallTakesEffectOnce(c: Crypto, ms: seq<Machine>, acts: seq<Action>, i: nat, j: nat, l: nat)
    requires Trace(c, ms, acts) && i < j < l <= |acts| && acts[i].Invoke? && acts[j] == Return(acts[i].t)
    requires acts[i].t in ms[j].threads && ms[j].threads[acts[i].t].ticket == ms[i].tickets
    ensures Entries(Log(c, ms, acts, i), ms[i].tickets) == []
    ensures ms[j].threads[acts[i].t].HasMutex?
    ensures Told(Log(c, ms, acts, j), ms[i].tickets, acts[i].call, ms[j].threads[acts[i].t].reply)
    ensures Entries(Log(c, ms, acts, l), ms[i].tickets) == Entries(Log(c, ms, acts, j), ms[i].tickets)
  {
    var t, k := acts[i].t, ms[i].tickets;
    NotBeforeInvoked(c, ms, acts, i);
    TicketKeepsCall(c, ms, acts, i, j, t);
    assert ActAt(c, ms, acts, j);
    WhatIsTold(c, ms, acts, j, t);
    Ends(c, ms, acts, j, t);
    OverIsOver(c, ms, acts, j + 1, l, k);
  }

  lemma NotBeforeInvoked(c: Crypto, ms: seq<Machine>, acts: seq<Action>, i: nat)
    requires Trace(c, ms, acts) && i <= |acts|
    ensures Entries(Log(c, ms, acts, i), ms[i].tickets) == []
  {
    RelatedAlong(c, ms, acts, i);
    NoEntriesAbove(Log(c, ms, acts, i), ms[i].tickets, ms[i].tickets);
  }

  // A call cut off by a crash keeps exactly the effect it had; before its write it has none, ever.
  lemma CrashBeforeEffectHasNone(c: Crypto, ms: seq<Machine>, acts: seq<Action>, i: nat, l: nat, t: Tid)
    requires Trace(c, ms, acts) && i < l <= |acts| && t in ms[i].threads && acts[i] == Crash(t.process)
    ensures ms[i + 1].file == ms[i].file
    ensures Entries(Log(c, ms, acts, l), ms[i].threads[t].ticket)
         == Entries(Log(c, ms, acts, i), ms[i].threads[t].ticket)
    ensures Pending(ms[i].threads[t]) ==> Entries(Log(c, ms, acts, l), ms[i].threads[t].ticket) == []
  {
    WhatIsTold(c, ms, acts, i, t);
    Ends(c, ms, acts, i, t);
    OverIsOver(c, ms, acts, i + 1, l, ms[i].threads[t].ticket);
  }

  // A query that returns answers truthfully for the file as it stood at some moment of the call,
  // although it never holds the writer lease.
  lemma {:induction false} QueryTellsTheTruth(c: Crypto, ms: seq<Machine>, acts: seq<Action>, i: nat, j: nat, t: Tid)
    requires Trace(c, ms, acts) && i < j <= |acts| && acts[i].Invoke? && acts[i].t == t && Reader(acts[i].call)
    requires t in ms[j].threads && ms[j].threads[t].ticket == ms[i].tickets
    ensures ms[j].threads[t].HasMutex? && ms[j].threads[t].reply != Failed(Io) ==>
              exists k :: i < k < j && ms[j].threads[t].reply == Apply(c, ms[k].file, acts[i].call, NO_ENV).reply
    ensures ms[j].threads[t].Loaded? ==> exists k :: i < k < j && ms[j].threads[t].snapshot == ms[k].file
    ensures !ms[j].threads[t].HasLease?
  {
    assert ActAt(c, ms, acts, j - 1);
    TicketKeepsCall(c, ms, acts, i, j, t);
    if i + 1 < j {
      TicketsGrow(c, ms, acts, i + 1, j - 1);
      assert ActAt(c, ms, acts, i);
      MoverKeepsCall(c, ms[j - 1], acts[j - 1], t);
      QueryTellsTheTruth(c, ms, acts, i, j - 1, t);
      RelatedAlong(c, ms, acts, j - 1);
      QueryStep(c, ms[j - 1], acts[j - 1], t);
    }
  }

  lemma QueryStep(c: Crypto, m: Machine, a: Action, t: Tid)
    requires Enabled(m, a) && t in m.threads && t in Next(c, m, a).threads && Reader(m.threads[t].call)
    requires !m.threads[t].HasLease? && !m.threads[t].Saving? && !m.threads[t].WantWriter?
    ensures var p, p' := m.threads[t], Next(c, m, a).threads[t];
      && !p'.HasLease?
      && (p'.Loaded? ==> p' == p || p'.snapshot == m.file)
      && (p'.HasMutex? && p'.reply != Failed(Io) ==>
            p' == p || (p.Loaded? && p'.reply == Apply(c, p.snapshot, p.call, NO_ENV).reply))
  {
  }

  // Settlers of one handle agree under every interleaving: with no verified disable in the run, every
  // settlement of a handle that was handed out returns what the first one returned.
  lemma ConcurrentSettlersAgree(c: Crypto, ms: seq<Machine>, acts: seq<Action>, k: nat, i: nat, j: nat)
    requires Trace(c, ms, acts) && k < i < j < |Log(c, ms, acts, |acts|)|
    requires var log := Log(c, ms, acts, |acts|);
      var states := States(c, Start(ms[0]), log);
      && Creates(states[k].store, log[k].call)
      && SettlesHandle(log[i], log[k].call.network, log[k].env.txid, log[k].env.secret)
      && SettlesHandle(log[j], log[k].call.network, log[k].env.txid, log[k].env.secret)
      && forall d :: 0 <= d < |log| ==> !DisablesVerified(c, states[d], log[d], log[k].call.network)
    ensures var log := Log(c, ms, acts, |acts|); log[i].reply == log[j].reply && log[i].reply.Settled?
  {
    var log := Log(c, ms, acts, |acts|);
    var states := States(c, Start(ms[0]), log);
    RefinesAtomicMachine(c, ms, acts, |acts|);
    var n, x, secret := log[k].call.network, log[k].env.txid, log[k].env.secret;
    CreatedHandleIsGenuine(c, states, log, k, i);
    SettlersAgree(c, states, log, i, j, n, x, secret);
    SettledState(c, states, log, i, j, n, x, secret);
  }

  // ---------------------------------------------------------------------------
  // Nobody waits for nothing
  // ---------------------------------------------------------------------------

  predicate MutexHeld(m: Machine, q: nat) {
    q in m.mutex && m.mutex[q] in m.threads && m.mutex[q].process == q && HoldsMutex(m.threads[m.mutex[q]])
  }

  predicate WriterHeld(m: Machine, t: Tid) { t in m.threads && HoldsWriter(m.threads[t]) }

  // Every lock that is taken is held by a running call that is inside: none leaks, not even by a crash.
  ghost predicate Unleaked(m: Machine) {
    && (forall q :: q in m.mutex ==> MutexHeld(m, q))
    && (m.writer.Some? ==> WriterHeld(m, m.writer.value))
  }

  lemma MutexesUnleaked(c: Crypto, m: Machine, a: Action, q: nat)
    requires Locks(m) && Unleaked(m) && Enabled(m, a) && q in Next(c, m, a).mutex
    ensures MutexHeld(Next(c, m, a), q)
  {
    if q in m.mutex { assert MutexHeld(m, q); }
  }

  lemma WriterUnleaked(c: Crypto, m: Machine, a: Action)
    requires Locks(m) && Unleaked(m) && Enabled(m, a) && Next(c, m, a).writer.Some?
    requires a.TakeWriter? ==> !Reader(m.threads[a.t].call)
    ensures WriterHeld(Next(c, m, a), Next(c, m, a).writer.value)
  {
    if m.writer.Some? { assert WriterHeld(m, m.writer.value); }
  }

  lemma WantersWrite(c: Crypto, ms: seq<Machine>, acts: seq<Action>, i: nat, t: Tid)
    requires Trace(c, ms, acts) && i <= |acts| && t in ms[i].threads && ms[i].threads[t].WantWriter?
    ensures !Reader(ms[i].threads[t].call)
  {
    RelatedAlong(c, ms, acts, i);
    var log := Log(c, ms, acts, i);
    assert PhaseOk(c, ms[i], States(c, Start(ms[0]), log)[|log|].minted, log, ms[i].threads[t]);
  }

  // At every moment of every trace no lock is left behind.
  lemma {:induction false} UnleakedAlong(c: Crypto, ms: seq<Machine>, acts: seq<Action>, i: nat)
    requires Trace(c, ms, acts) && i <= |acts|
    ensures Locks(ms[i]) && Unleaked(ms[i])
  {
    if i > 0 {
      UnleakedAlong(c, ms, acts, i - 1);
      assert ActAt(c, ms, acts, i - 1);
      LocksKept(c, ms[i - 1], acts[i - 1]);
      forall q | q in ms[i].mutex ensures MutexHeld(ms[i], q) { MutexesUnleaked(c, ms[i - 1], acts[i - 1], q); }
      if acts[i - 1].TakeWriter? { WantersWrite(c, ms, acts, i - 1, acts[i - 1].t); }
      if ms[i].writer.Some? { WriterUnleaked(c, ms[i - 1], acts[i - 1]); }
    }
  }

  // A step of a running call that is not a failure.
  predicate GoesOn(a: Action) {
    !a.Invoke? && !a.LeaseFails? && !a.LoadFails? && !a.SaveFails? && !a.Crash?
  }

  // An identity that none of finitely many drawn ones is.
  lemma {:induction false} Undrawn(drawn: set<string>) returns (x: string)
    ensures forall y :: y in drawn ==> |y| < |x|
    ensures x != ""
  {
    if drawn == {} {
      x := "x";
    } else {
      var y :| y in drawn;
      x := Undrawn(drawn - {y});
      if |x| <= |y| { x := y + "x"; }
    }
  }

  // A call that waits for no lock can go on.
  lemma CanGoOn(m: Machine, t: Tid) returns (a: Action)
    requires t in m.threads && !m.threads[t].WantMutex? && !m.threads[t].WantWriter?
    ensures Enabled(m, a) && GoesOn(a)
  {
    match m.threads[t]
    case Ready(_, _) => a := Load(t);
    case Loaded(_, _, _) =>
      var x := Undrawn(m.drawn);
      a := Decide(t, Env("x", ["x"], x, "", 0));
    case Saving(_, _, _, _, _) => a := Save(t);
    case HasLease(_, _, _) => a := FreeWriter(t);
    case HasMutex(_, _, _) => a := Return(t);
  }

  lemma SomeoneCanGoOn(m: Machine, t: Tid) returns (a: Action)
    requires Unleaked(m) && t in m.threads
    ensures Enabled(m, a) && GoesOn(a)
  {
    if m.threads[t].WantMutex? && t.process in m.mutex {
      assert MutexHeld(m, t.process);
      a := SomeoneInsideCanGoOn(m, m.mutex[t.process]);
    } else if m.threads[t].WantMutex? {
      a := TakeMutex(t);
    } else {
      a := SomeoneInsideCanGoOn(m, t);
    }
  }

  lemma SomeoneInsideCanGoOn(m: Machine, t: Tid) returns (a: Action)
    requires Unleaked(m) && t in m.threads && !m.threads[t].WantMutex?
    ensures Enabled(m, a) && GoesOn(a)
  {
    if m.threads[t].WantWriter? && m.writer.None? {
      a := TakeWriter(t);
    } else if m.threads[t].WantWriter? {
      assert WriterHeld(m, m.writer.value);
      a := CanGoOn(m, m.writer.value);
    } else {
      a := CanGoOn(m, t);
    }
  }

  // No deadlock and no leaked lock: in every reachable state with a running call, after any crashes and
  // failures, some running call has a step that is neither a failure nor a crash.
  lemma NeverStuck(c: Crypto, ms: seq<Machine>, acts: seq<Action>, i: nat)
    requires Trace(c, ms, acts) && i <= |acts| && ms[i].threads != map[]
    ensures exists a :: Enabled(ms[i], a) && GoesOn(a)
  {
    UnleakedAlong(c, ms, acts, i);
    assert ms[i].threads.Keys != {};
    var t :| t in ms[i].threads.Keys;
    var a := SomeoneCanGoOn(ms[i], t);
  }
}
