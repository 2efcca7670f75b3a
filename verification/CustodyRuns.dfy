// Whole runs of the custody store as an atomic machine: identities, settlement, redelivery and
// recovery codes.
module CustodyRuns {
  import opened Prelude
  import opened CustodyStore
  import Totp

  // The store and every transaction identity installed so far.
  datatype State = State(store: Store, minted: set<string>)

  // One call taking effect. The ticket tells calls apart.
  datatype Event = Event(ticket: nat, call: Call, env: Env, reply: Reply)

  predicate Creates(s: Store, call: Call) {
    (call.Install? || call.Prepare?) && call.network !in s
  }

  // A drawn identity has never been used before; a drawn secret and recovery list are never empty.
  predicate FreshDraw(minted: set<string>, env: Env) {
    env.txid !in minted && env.txid != "" && env.secret != "" && env.codes != []
  }

  ghost predicate Step(c: Crypto, s: State, e: Event, s': State) {
    && var out := Apply(c, s.store, e.call, e.env);
    && s'.store == out.store && e.reply == out.reply
    && (Creates(s.store, e.call) ==> FreshDraw(s.minted, e.env))
    && s'.minted == s.minted + if Creates(s.store, e.call) then {e.env.txid} else {}
  }

  // A run: one state before and after every event.
  ghost predicate Run(c: Crypto, states: seq<State>, log: seq<Event>) {
    && |states| == |log| + 1
    && (forall n :: n in states[0].store ==> RecordOk(states[0], n))
    && (forall m, n :: m in states[0].store && n in states[0].store && m != n ==>
          states[0].store[m].txid != states[0].store[n].txid)
    && forall i :: 0 <= i < |log| ==> StepAt(c, states, log, i)
  }

  ghost predicate StepAt(c: Crypto, states: seq<State>, log: seq<Event>, i: nat)
    requires i < |log| && |states| == |log| + 1
  {
    Step(c, states[i], log[i], states[i + 1])
  }

  predicate Holds(s: State, n: string, x: string) { n in s.store && s.store[n].txid == x }

  // ---------------------------------------------------------------------------
  // What every event keeps
  // ---------------------------------------------------------------------------

  predicate RecordOk(s: State, n: string)
    requires n in s.store
  {
    var e := s.store[n];
    && e.txid in s.minted
    && match e.phase
       case Prepared => e.txid != "" && e.secret != "" && e.preparedCodes != []
       case Committed => e.preparedCodes == [] && e.preparedAccount == [] && e.processNonce == ""
  }

  ghost predicate Inv(s: State) {
    && (forall n :: n in s.store ==> RecordOk(s, n))
    && (forall m, n :: m in s.store && n in s.store && m != n ==> s.store[m].txid != s.store[n].txid)
  }

  lemma StepKeepsInv(c: Crypto, s: State, e: Event, s': State)
    requires Inv(s) && Step(c, s, e, s')
    ensures Inv(s')
  {
    forall n | n in s'.store
      ensures RecordOk(s', n)
      ensures if n in s.store then s'.store[n].txid == s.store[n].txid
              else n == e.call.network && s'.store[n].txid !in s.minted
    {
      RecordAfter(c, s, e, s', n);
    }
  }

  lemma RecordAfter(c: Crypto, s: State, e: Event, s': State, n: string)
    requires Inv(s) && Step(c, s, e, s') && n in s'.store
    ensures RecordOk(s', n)
    ensures if n in s.store then s'.store[n].txid == s.store[n].txid
            else n == e.call.network && s'.store[n].txid !in s.minted
  {
    if n in s.store { assert RecordOk(s, n); }
  }

  lemma {:induction false} InvAlong(c: Crypto, states: seq<State>, log: seq<Event>, i: nat)
    requires Run(c, states, log) && i < |states|
    ensures Inv(states[i])
  {
    if i > 0 {
      InvAlong(c, states, log, i - 1);
      assert StepAt(c, states, log, i - 1);
      StepKeepsInv(c, states[i - 1], log[i - 1], states[i]);
    }
  }

  // An event changes at most the record of the network its call names.
  lemma OtherNetworksUntouched(c: Crypto, s: State, e: Event, s': State, n: string)
    requires Step(c, s, e, s') && n != e.call.network
    ensures n in s.store <==> n in s'.store
    ensures n in s.store ==> s'.store[n] == s.store[n]
  {
  }

  // A settlement that does not name the installed identity and secret changes nothing.
  lemma StaleSettlementIsInert(c: Crypto, s: State, e: Event, s': State)
    requires Step(c, s, e, s') && e.call.Settle? && !Names(s.store, e.call.network, e.call.txid, e.call.secret)
    ensures s'.store == s.store && e.reply == Settled(NowAbsent)
  {
  }

  // ---------------------------------------------------------------------------
  // How a record can change in one event
  // ---------------------------------------------------------------------------

  predicate SettlesExactly(e: Event, n: string, r: Enrollment, request: Request) {
    e.call == Settle(n, r.txid, r.secret, request)
  }

  // A disable whose code verified against the record it removes.
  predicate DisablesVerified(c: Crypto, s: State, e: Event, n: string) {
    && e.call.Disable? && e.call.network == n && n in s.store && s.store[n].phase.Committed?
    && !VerifyCode(c, s.store[n], Some(e.call.typed), e.env.now).Refused?
  }

  // A gate that consumes the recovery code at `pos`.
  predicate Consumes(c: Crypto, s: State, e: Event, n: string) {
    && e.call.Require? && e.call.network == n && n in s.store
    && VerifyCode(c, s.store[n], e.call.code, e.env.now).ByRecovery?
  }

  // Every fate of an installed record: it stays, loses one recovery hash to a gate, is committed or
  // aborted by a settlement naming its exact identity and secret while prepared, or is removed by a
  // verified disable while committed. Nothing else reaches it.
  predicate Fate(c: Crypto, s: State, e: Event, s': State, n: string)
    requires n in s.store
  {
    var r := s.store[n];
    if r.phase.Prepared? && SettlesExactly(e, n, r, Abort) then n !in s'.store
    else if DisablesVerified(c, s, e, n) then n !in s'.store
    else
      && n in s'.store
      && s'.store[n] ==
         if r.phase.Prepared? && SettlesExactly(e, n, r, Commit) then CommitRecord(r)
         else if Consumes(c, s, e, n) then SpendRecord(r, VerifyCode(c, r, e.call.code, e.env.now).pos)
         else r
  }

  lemma RecordFate(c: Crypto, s: State, e: Event, s': State, n: string)
    requires Step(c, s, e, s') && n in s.store
    ensures Fate(c, s, e, s', n)
  {
    if e.call.network != n {
      OtherNetworksUntouched(c, s, e, s', n);
    } else {
      match e.call {
        case Settle(_, txid, secret, request) =>
        case Require(_, code) =>
        case Disable(_, typed) =>
        case _ =>
      }
    }
  }

  // What event i of a run does to the record of network n.
  lemma FateAt(c: Crypto, states: seq<State>, log: seq<Event>, i: nat, n: string)
    requires Run(c, states, log) && i < |log|
    ensures Inv(states[i]) && states[i].minted <= states[i + 1].minted
    ensures n in states[i].store ==> Fate(c, states[i], log[i], states[i + 1], n)
    ensures forall x :: x in states[i].minted && !Holds(states[i], n, x) ==> !Holds(states[i + 1], n, x)
  {
    InvAlong(c, states, log, i);
    assert StepAt(c, states, log, i);
    if n in states[i].store { RecordFate(c, states[i], log[i], states[i + 1], n); }
    forall x | x in states[i].minted && !Holds(states[i], n, x) ensures !Holds(states[i + 1], n, x) {
      StaysForeign(c, states[i], log[i], states[i + 1], n, x);
    }
  }

  // ---------------------------------------------------------------------------
  // Identities
  // ---------------------------------------------------------------------------

  lemma {:induction false} MintedGrows(c: Crypto, states: seq<State>, log: seq<Event>, i: nat, j: nat)
    requires Run(c, states, log) && i <= j < |states|
    ensures states[i].minted <= states[j].minted
  {
    if i < j {
      MintedGrows(c, states, log, i, j - 1);
      assert StepAt(c, states, log, j - 1);
    }
  }

  // Each identity is installed at most once in any run.
  lemma InstalledAtMostOnce(c: Crypto, states: seq<State>, log: seq<Event>, i: nat, j: nat)
    requires Run(c, states, log) && i < |log| && j < |log|
    requires Creates(states[i].store, log[i].call) && Creates(states[j].store, log[j].call)
    requires log[i].env.txid == log[j].env.txid
    ensures i == j
  {
    if i < j {
      MintedGrows(c, states, log, i + 1, j);
    } else if j < i {
      MintedGrows(c, states, log, j + 1, i);
    }
    assert StepAt(c, states, log, i) && StepAt(c, states, log, j);
  }

  // A network that does not hold a used identity cannot come to hold it.
  lemma StaysForeign(c: Crypto, s: State, e: Event, s': State, n: string, x: string)
    requires Inv(s) && Step(c, s, e, s') && x in s.minted && !Holds(s, n, x)
    ensures !Holds(s', n, x)
  {
    if n in s.store {
      RecordFate(c, s, e, s', n);
    } else if n != e.call.network {
      OtherNetworksUntouched(c, s, e, s', n);
    }
  }

  lemma {:induction false} NeverReturnsHere(c: Crypto, states: seq<State>, log: seq<Event>, j: nat, k: nat,
      n: string, x: string)
    requires Run(c, states, log) && j <= k < |states|
    requires x in states[j].minted && !Holds(states[j], n, x)
    ensures !Holds(states[k], n, x)
  {
    if j < k {
      NeverReturnsHere(c, states, log, j, k - 1, n, x);
      MintedGrows(c, states, log, j, k - 1);
      FateAt(c, states, log, k - 1, n);
    }
  }

  // An identity that has been used and is no longer installed never comes back, on any network.
  lemma NeverReturns(c: Crypto, states: seq<State>, log: seq<Event>, j: nat, k: nat, x: string)
    requires Run(c, states, log) && j <= k < |states|
    requires x in states[j].minted && forall n :: !Holds(states[j], n, x)
    ensures forall n :: !Holds(states[k], n, x)
  {
    forall n ensures !Holds(states[k], n, x) {
      NeverReturnsHere(c, states, log, j, k, n, x);
    }
  }

  // Between two moments at which one identity is installed, its secret never changes, and its phase
  // only moves from prepared to committed.
  lemma {:induction false} SameIdentitySameSecret(c: Crypto, states: seq<State>, log: seq<Event>, i: nat,
      j: nat, n: string, x: string)
    requires Run(c, states, log) && i <= j < |states| && Holds(states[i], n, x) && Holds(states[j], n, x)
    ensures states[j].store[n].secret == states[i].store[n].secret
    ensures states[i].store[n].phase.Committed? ==> states[j].store[n].phase.Committed?
    ensures states[j].store[n].phase.Prepared? ==>
              && states[j].store[n].preparedCodes == states[i].store[n].preparedCodes
              && states[j].store[n].preparedAccount == states[i].store[n].preparedAccount
  {
    if i < j {
      HeldBetween(c, states, log, i, j - 1, j, n, x);
      SameIdentitySameSecret(c, states, log, i, j - 1, n, x);
      FateAt(c, states, log, j - 1, n);
    }
  }

  lemma HeldBetween(c: Crypto, states: seq<State>, log: seq<Event>, i: nat, k: nat, j: nat, n: string, x: string)
    requires Run(c, states, log) && i <= k <= j < |states| && Holds(states[i], n, x) && Holds(states[j], n, x)
    ensures Holds(states[k], n, x)
  {
    if !Holds(states[k], n, x) {
      InvAlong(c, states, log, i);
      assert RecordOk(states[i], n);
      MintedGrows(c, states, log, i, k);
      NeverReturnsHere(c, states, log, k, j, n, x);
    }
  }

  // A prepared record that is gone later was aborted by its exact identity and secret, or committed
  // by them and then removed by a disable whose code verified against it.
  lemma {:induction false} PreparedLeavesOnlyExplicitly(c: Crypto, states: seq<State>, log: seq<Event>, i: nat,
      j: nat, n: string)
    requires Run(c, states, log) && i <= j < |states|
    requires n in states[i].store && states[i].store[n].phase.Prepared?
    requires !Holds(states[j], n, states[i].store[n].txid)
    ensures var r := states[i].store[n];
      || (exists k :: i <= k < j && SettlesExactly(log[k], n, r, Abort) && Holds(states[k], n, r.txid))
      || (exists k, d :: i <= k < d < j && SettlesExactly(log[k], n, r, Commit)
                      && Holds(states[d], n, r.txid) && DisablesVerified(c, states[d], log[d], n))
  {
    var r := states[i].store[n];
    var d := LastHeld(c, states, log, i, j, n, r.txid);
    SameIdentitySameSecret(c, states, log, i, d, n, r.txid);
    FateAt(c, states, log, d, n);
    if states[d].store[n].phase.Prepared? {
      assert SettlesExactly(log[d], n, r, Abort);
    } else {
      var k := CommittedBy(c, states, log, i, d, n);
      assert SettlesExactly(log[k], n, r, Commit);
    }
  }

  lemma {:induction false} LastHeld(c: Crypto, states: seq<State>, log: seq<Event>, i: nat, j: nat, n: string,
      x: string)
    returns (d: nat)
    requires Run(c, states, log) && i <= j < |states| && Holds(states[i], n, x) && !Holds(states[j], n, x)
    ensures i <= d < j && Holds(states[d], n, x) && !Holds(states[d + 1], n, x)
  {
    if Holds(states[j - 1], n, x) {
      d := j - 1;
    } else {
      d := LastHeld(c, states, log, i, j - 1, n, x);
    }
  }

  lemma {:induction false} CommittedBy(c: Crypto, states: seq<State>, log: seq<Event>, i: nat, d: nat, n: string)
    returns (k: nat)
    requires Run(c, states, log) && i <= d < |states| && n in states[i].store && states[i].store[n].phase.Prepared?
    requires Holds(states[d], n, states[i].store[n].txid) && states[d].store[n].phase.Committed?
    ensures i <= k < d && SettlesExactly(log[k], n, states[i].store[n], Commit)
  {
    var x := states[i].store[n].txid;
    HeldBetween(c, states, log, i, d - 1, d, n, x);
    SameIdentitySameSecret(c, states, log, i, d - 1, n, x);
    if states[d - 1].store[n].phase.Committed? {
      k := CommittedBy(c, states, log, i, d - 1, n);
    } else {
      FateAt(c, states, log, d - 1, n);
      k := d - 1;
    }
  }

  // ---------------------------------------------------------------------------
  // Settlement
  // ---------------------------------------------------------------------------

  // A handle someone was given: its identity has been installed, and where it is still installed the
  // handle's secret is the record's.
  predicate Genuine(s: State, n: string, x: string, secret: string) {
    x in s.minted && (Holds(s, n, x) ==> s.store[n].secret == secret)
  }

  // Handles returned by a creating call stay genuine for the rest of the run.
  lemma CreatedHandleIsGenuine(c: Crypto, states: seq<State>, log: seq<Event>, k: nat, i: nat)
    requires Run(c, states, log) && k < i < |states| && Creates(states[k].store, log[k].call)
    ensures Genuine(states[i], log[k].call.network, log[k].env.txid, log[k].env.secret)
  {
    var n, x := log[k].call.network, log[k].env.txid;
    assert StepAt(c, states, log, k);
    MintedGrows(c, states, log, k + 1, i);
    if Holds(states[i], n, x) {
      SameIdentitySameSecret(c, states, log, k + 1, i, n, x);
    }
  }

  // Whether a verified disable removed identity x from network n in the events i .. j.
  predicate DisabledBetween(c: Crypto, states: seq<State>, log: seq<Event>, i: nat, j: nat, n: string, x: string)
    requires |states| == |log| + 1 && j <= |log|
  {
    exists d :: i <= d < j && Holds(states[d], n, x) && DisablesVerified(c, states[d], log[d], n)
  }

  lemma {:induction false} CommittedUntilDisabled(c: Crypto, states: seq<State>, log: seq<Event>, i: nat,
      j: nat, n: string, x: string)
    requires Run(c, states, log) && i <= j < |states| && Holds(states[i], n, x) && states[i].store[n].phase.Committed?
    ensures Holds(states[j], n, x) <==> !DisabledBetween(c, states, log, i, j, n, x)
    ensures Holds(states[j], n, x) ==> states[j].store[n].phase.Committed?
  {
    if i < j {
      CommittedUntilDisabled(c, states, log, i, j - 1, n, x);
      FateAt(c, states, log, j - 1, n);
      DisabledByThen(c, states, log, i, j - 1, n, x);
      if DisabledBetween(c, states, log, i, j - 1, n, x) {
        InvAlong(c, states, log, i);
        assert RecordOk(states[i], n);
        MintedGrows(c, states, log, i, j - 1);
      }
    }
  }

  lemma DisabledByThen(c: Crypto, states: seq<State>, log: seq<Event>, i: nat, j: nat, n: string, x: string)
    requires |states| == |log| + 1 && i <= j < |log|
    ensures DisabledBetween(c, states, log, i, j + 1, n, x) <==>
      || DisabledBetween(c, states, log, i, j, n, x)
      || (Holds(states[j], n, x) && DisablesVerified(c, states[j], log[j], n))
  {
    if DisabledBetween(c, states, log, i, j, n, x) {
      var d :| i <= d < j && Holds(states[d], n, x) && DisablesVerified(c, states[d], log[d], n);
      assert i <= d < j + 1;
    }
  }

  predicate SettlesHandle(e: Event, n: string, x: string, secret: string) {
    e.call.Settle? && e.call.network == n && e.call.txid == x && e.call.secret == secret
  }

  // After the first settlement of a genuine handle every later one, whatever it asks for, answers
  // what the first established, unless a verified disable has removed the record since.
  lemma SettlersAgree(c: Crypto, states: seq<State>, log: seq<Event>, i: nat, j: nat, n: string, x: string,
      secret: string)
    requires Run(c, states, log) && i < j < |log|
    requires SettlesHandle(log[i], n, x, secret) && SettlesHandle(log[j], n, x, secret)
    requires Genuine(states[i], n, x, secret)
    ensures log[i].reply == Settled(NowAbsent) ==> log[j].reply == Settled(NowAbsent)
    ensures log[i].reply == Settled(NowCommitted) ==>
              var disabled := DisabledBetween(c, states, log, i + 1, j, n, x);
              log[j].reply == Settled(if disabled then NowAbsent else NowCommitted)
    ensures log[i].reply.Settled?
  {
    SettledState(c, states, log, i, j, n, x, secret);
    assert StepAt(c, states, log, j);
  }

  // The transaction query tells the same story as the settlers.
  lemma QueryAgreesWithSettlers(c: Crypto, states: seq<State>, log: seq<Event>, i: nat, j: nat, n: string,
      x: string, secret: string)
    requires Run(c, states, log) && i < j < |log|
    requires SettlesHandle(log[i], n, x, secret) && log[j].call == Query(n, x)
    requires Genuine(states[i], n, x, secret)
    ensures log[j].reply ==
              if log[i].reply == Settled(NowAbsent) || DisabledBetween(c, states, log, i + 1, j, n, x)
              then IsAbsent else IsCommitted
  {
    SettledState(c, states, log, i, j, n, x, secret);
    assert StepAt(c, states, log, j);
  }

  // The state a genuine settlement leaves for every later moment.
  lemma SettledState(c: Crypto, states: seq<State>, log: seq<Event>, i: nat, j: nat, n: string, x: string,
      secret: string)
    requires Run(c, states, log) && i < j < |states|
    requires SettlesHandle(log[i], n, x, secret) && Genuine(states[i], n, x, secret)
    ensures log[i].reply == Settled(NowAbsent) || log[i].reply == Settled(NowCommitted)
    ensures log[i].reply == Settled(NowAbsent) ==> !Holds(states[j], n, x)
    ensures log[i].reply == Settled(NowCommitted) ==>
              && (Holds(states[j], n, x) <==> !DisabledBetween(c, states, log, i + 1, j, n, x))
              && (Holds(states[j], n, x) ==> states[j].store[n].phase.Committed? && states[j].store[n].secret == secret)
    ensures DisabledBetween(c, states, log, i + 1, j, n, x) ==> log[i].reply == Settled(NowCommitted)
  {
    assert StepAt(c, states, log, i);
    MintedGrows(c, states, log, i, i + 1);
    if Holds(states[i + 1], n, x) {
      CommittedUntilDisabled(c, states, log, i + 1, j, n, x);
      if Holds(states[j], n, x) { SameIdentitySameSecret(c, states, log, i + 1, j, n, x); }
    } else {
      forall k | i + 1 <= k <= j ensures !Holds(states[k], n, x) {
        NeverReturnsHere(c, states, log, i + 1, k, n, x);
      }
    }
  }

  // ---------------------------------------------------------------------------
  // Redelivery
  // ---------------------------------------------------------------------------

  function CreatedHandle(e: Event): Handle
    requires e.call.Install? || e.call.Prepare?
  {
    HandleOf(e.call.network, e.env.txid, e.env.secret, e.call.account, e.env.codes)
  }

  predicate Delivers(reply: Reply, x: string) {
    (reply.Fresh? || reply.Existing? || reply.IsPrepared?) && reply.handle.txid == x
  }

  // While the record created by event k is prepared, every prepare (whatever account it passes) and
  // every query of its identity returns the identical handle exactly when the account recorded at
  // creation is not empty.
  lemma RedeliversTheSame(c: Crypto, states: seq<State>, log: seq<Event>, k: nat, i: nat)
    requires Run(c, states, log) && k < i < |log| && Creates(states[k].store, log[k].call)
    requires Holds(states[i], log[k].call.network, log[k].env.txid)
    requires states[i].store[log[k].call.network].phase.Prepared?
    ensures log[k].reply == Fresh(CreatedHandle(log[k]))
    ensures forall a :: log[i].call == Prepare(log[k].call.network, a) ==>
              log[i].reply == if log[k].call.account != [] then Existing(CreatedHandle(log[k])) else Failed(NoAccount)
    ensures log[i].call == Query(log[k].call.network, log[k].env.txid) ==>
              log[i].reply == if log[k].call.account != [] then IsPrepared(CreatedHandle(log[k])) else Failed(NoAccount)
  {
    var n, x := log[k].call.network, log[k].env.txid;
    assert StepAt(c, states, log, k);
    SameIdentitySameSecret(c, states, log, k + 1, i, n, x);
    assert StepAt(c, states, log, i);
  }

  // Material is only ever handed out for a record that is prepared afterwards.
  lemma DeliveredMeansPrepared(c: Crypto, s: State, e: Event, s': State, x: string)
    requires Inv(s) && Step(c, s, e, s') && Delivers(e.reply, x)
    ensures Holds(s', e.call.network, x) && s'.store[e.call.network].phase.Prepared?
  {
  }

  // Once an identity is committed no later call hands out its material, on any network.
  lemma NothingDeliveredAfterCommit(c: Crypto, states: seq<State>, log: seq<Event>, i: nat, j: nat, n: string,
      x: string)
    requires Run(c, states, log) && i <= j < |log|
    requires Holds(states[i], n, x) && states[i].store[n].phase.Committed?
    ensures !Delivers(log[j].reply, x)
  {
    if Delivers(log[j].reply, x) {
      var m := log[j].call.network;
      InvAlong(c, states, log, i);
      InvAlong(c, states, log, j);
      assert RecordOk(states[i], n);
      assert StepAt(c, states, log, j);
      DeliveredMeansPrepared(c, states[j], log[j], states[j + 1], x);
      if m == n {
        SameIdentitySameSecret(c, states, log, i, j + 1, n, x);
      } else {
        assert !Holds(states[i], m, x);
        NeverReturnsHere(c, states, log, i, j + 1, m, x);
      }
    }
  }

  // ---------------------------------------------------------------------------
  // Recovery codes
  // ---------------------------------------------------------------------------

  function SpentHash(c: Crypto, s: State, e: Event, n: string): string
    requires Consumes(c, s, e, n)
  {
    s.store[n].recoveryHashes[VerifyCode(c, s.store[n], e.call.code, e.env.now).pos]
  }

  // The hashes consumed by admitted gates on network n in the events i .. j.
  ghost function Spent(c: Crypto, states: seq<State>, log: seq<Event>, i: nat, j: nat, n: string): multiset<string>
    requires |states| == |log| + 1 && i <= j <= |log|
    decreases j
  {
    if i == j then multiset{}
    else Spent(c, states, log, i, j - 1, n) + SpentBy(c, states[j - 1], log[j - 1], n)
  }

  // What a gate consumes is the hash of the code that was typed.
  lemma SpentHashIsTyped(c: Crypto, s: State, e: Event, n: string)
    requires Consumes(c, s, e, n)
    ensures e.call.code.Some? && SpentHash(c, s, e, n) == HashCode(c, Totp.Trim(e.call.code.value))
  {
  }

  // From one moment to any later one of the same installed identity, the hashes that remain and the
  // hashes that were spent make up the hashes there were.
  lemma {:induction false} RecoveryCodesConserved(c: Crypto, states: seq<State>, log: seq<Event>, i: nat,
      j: nat, n: string, x: string)
    requires Run(c, states, log) && i <= j < |states| && Holds(states[i], n, x) && Holds(states[j], n, x)
    ensures multiset(states[i].store[n].recoveryHashes)
         == multiset(states[j].store[n].recoveryHashes) + Spent(c, states, log, i, j, n)
  {
    if i < j {
      HeldBetween(c, states, log, i, j - 1, j, n, x);
      RecoveryCodesConserved(c, states, log, i, j - 1, n, x);
      FateAt(c, states, log, j - 1, n);
      OneEventConserves(c, states[j - 1], log[j - 1], states[j], n);
      AddUp(multiset(states[i].store[n].recoveryHashes), multiset(states[j - 1].store[n].recoveryHashes),
            multiset(states[j].store[n].recoveryHashes), Spent(c, states, log, i, j - 1, n),
            SpentBy(c, states[j - 1], log[j - 1], n));
    }
  }

  lemma AddUp(first: multiset<string>, mid: multiset<string>, last: multiset<string>, early: multiset<string>,
      late: multiset<string>)
    requires first == mid + early && mid == last + late
    ensures first == last + (early + late)
  {
  }

  function SpentBy(c: Crypto, s: State, e: Event, n: string): multiset<string> {
    if Consumes(c, s, e, n) then multiset{SpentHash(c, s, e, n)} else multiset{}
  }

  lemma OneEventConserves(c: Crypto, s: State, e: Event, s': State, n: string)
    requires n in s.store && Holds(s', n, s.store[n].txid) && Fate(c, s, e, s', n)
    ensures multiset(s.store[n].recoveryHashes) == multiset(s'.store[n].recoveryHashes) + SpentBy(c, s, e, n)
  {
    if Consumes(c, s, e, n) {
      RemovedOne(s.store[n].recoveryHashes, VerifyCode(c, s.store[n], e.call.code, e.env.now).pos);
    }
  }

  lemma RemovedOne(s: seq<string>, pos: nat)
    requires pos < |s|
    ensures multiset(s) == multiset(s[..pos] + s[pos + 1..]) + multiset{s[pos]}
  {
    assert s == s[..pos] + [s[pos]] + s[pos + 1..];
  }

  // From installation on, no hash is spent more often than it was issued: in particular a code can
  // be used once.
  lemma EachCodeAtMostItsMultiplicity(c: Crypto, states: seq<State>, log: seq<Event>, k: nat, j: nat, h: string)
    requires Run(c, states, log) && k < j < |states| && Creates(states[k].store, log[k].call)
    requires Holds(states[j], log[k].call.network, log[k].env.txid)
    ensures Spent(c, states, log, k + 1, j, log[k].call.network)[h]
         <= multiset(NewRecord(c, log[k].call.account, log[k].env).recoveryHashes)[h]
  {
    assert StepAt(c, states, log, k);
    RecoveryCodesConserved(c, states, log, k + 1, j, log[k].call.network, log[k].env.txid);
  }

  // A gate writes exactly when it consumes a recovery code; admissions by TOTP and refusals leave
  // the store alone.
  lemma GateWritesOnlyToConsume(c: Crypto, s: State, e: Event, s': State)
    requires Step(c, s, e, s') && e.call.Require?
    ensures s'.store != s.store <==> Consumes(c, s, e, e.call.network)
    ensures e.reply == Admitted <==>
              || e.call.network !in s.store
              || !VerifyCode(c, s.store[e.call.network], e.call.code, e.env.now).Refused?
  {
    var n := e.call.network;
    if Consumes(c, s, e, n) {
      var pos := VerifyCode(c, s.store[n], e.call.code, e.env.now).pos;
      assert |s'.store[n].recoveryHashes| < |s.store[n].recoveryHashes|;
    }
  }

  // ---------------------------------------------------------------------------
  // The entry points make runs
  // ---------------------------------------------------------------------------

  // One call, answered by its entry point.
  method Serve(c: Crypto, file: CustodyFile, call: Call, env: Env) returns (reply: Reply)
    modifies file
    ensures var out := Apply(c, old(file.networks), call, env); file.networks == out.store && reply == out.reply
  {
    match call
    case Install(network, account) => reply := file.CreateProvisionalEnroll(c, network, account, env, file.networks);
    case Prepare(network, account) => reply := file.PrepareOrRecover(c, network, account, env);
    case Settle(network, txid, secret, request) => reply := file.SettleExact(c, network, txid, secret, request, env);
    case Require(network, code) => reply := file.RequireAt(c, network, code, env);
    case Disable(network, typed) => reply := file.DisableAt(c, network, typed, env);
    case Query(network, txid) => reply := file.TransactionAt(c, network, txid, env);
  }

  // Draws that are fresh, each from those before it.
  ghost predicate FreshDraws(minted: set<string>, envs: seq<Env>) {
    && (forall i :: 0 <= i < |envs| ==> FreshDraw(minted, envs[i]))
    && (forall i, j :: 0 <= i < j < |envs| ==> envs[i].txid != envs[j].txid)
  }

  // Any calls whatever, answered one after another, are a run of the atomic machine with those calls and
  // answers, so every statement above is about the entry points.
  method ServeAll(c: Crypto, file: CustodyFile, calls: seq<Call>, envs: seq<Env>, ghost minted: set<string>)
    returns (replies: seq<Reply>, ghost states: seq<State>, ghost log: seq<Event>)
    requires |envs| == |calls| && FreshDraws(minted, envs) && Inv(State(file.networks, minted))
    modifies file
    ensures Run(c, states, log) && |log| == |calls| == |replies|
    ensures states[0] == State(old(file.networks), minted) && states[|log|].store == file.networks
    ensures forall i :: 0 <= i < |calls| ==> log[i] == Event(i, calls[i], envs[i], replies[i])
  {
    replies, states, log := [], [State(file.networks, minted)], [];
    for i := 0 to |calls|
      invariant |replies| == |log| == i && Run(c, states, log)
      invariant states[0] == State(old(file.networks), minted) && states[i].store == file.networks
      invariant forall k :: 0 <= k < i ==> log[k] == Event(k, calls[k], envs[k], replies[k])
      invariant forall x :: x in states[i].minted ==> x in minted || exists k :: 0 <= k < i && envs[k].txid == x
    {
      ghost var before := states[i];
      var reply := Serve(c, file, calls[i], envs[i]);
      ghost var event := Event(i, calls[i], envs[i], reply);
      ghost var drawn: set<string> := if Creates(before.store, calls[i]) then {envs[i].txid} else {};
      ghost var after := State(file.networks, before.minted + drawn);
      assert FreshDraw(before.minted, envs[i]);
      RunExtends(c, states, log, event, after);
      replies, states, log := replies + [reply], states + [after], log + [event];
    }
  }

  lemma RunExtends(c: Crypto, states: seq<State>, log: seq<Event>, e: Event, s': State)
    requires Run(c, states, log) && Step(c, states[|log|], e, s')
    ensures Run(c, states + [s'], log + [e])
  {
    var states', log' := states + [s'], log + [e];
    forall i | 0 <= i < |log'| ensures StepAt(c, states', log', i) {
      if i < |log| { assert StepAt(c, states, log, i); }
    }
  }
}
