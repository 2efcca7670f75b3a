// What every call answers and leaves, spelled out on the records, the typed codes and the material handed
// out, apart from the functions that decide it.
module CustodyAnswers {
  import opened Prelude
  import opened CustodyStore
  import opened CustodyRuns
  import Otpauth
  import Totp

  // ---------------------------------------------------------------------------
  // Codes
  // ---------------------------------------------------------------------------

  // One character of a typed recovery code: letters without case and digits count, nothing else.
  function Spelled(ch: char): string {
    if 'A' <= ch <= 'Z' then [(ch as int + 32) as char]
    else if 'a' <= ch <= 'z' || '0' <= ch <= '9' then [ch]
    else []
  }

  // A recovery code is read character by character.
  lemma {:induction false} NormalizeIs(a: string, ch: char, b: string)
    ensures Normalize(a + [ch] + b) == Normalize(a) + Spelled(ch) + Normalize(b)
    ensures Normalize("") == ""
    decreases |a|
  {
    var whole := a + [ch] + b;
    if a == [] {
      assert whole[0] == ch && whole[1..] == b;
      assert Normalize(a) + Spelled(ch) + Normalize(b) == Spelled(ch) + Normalize(b);
    } else {
      assert whole[0] == a[0] && whole[1..] == a[1..] + [ch] + b;
      NormalizeIs(a[1..], ch, b);
      Regrouped(Normalize(a[..1]), Normalize(a[1..]), Spelled(ch), Normalize(b));
      assert Normalize(a[..1]) + Normalize(a[1..]) == Normalize(a);
    }
  }

  lemma Regrouped(x: string, y: string, z: string, t: string)
    ensures x + (y + z + t) == (x + y) + z + t
  {
  }

  // The code is the one of the current step of thirty seconds, of the next, or of the one before.
  predicate Shown(c: Crypto, key: seq<bv8>, typed: string, now: nat) {
    var step := now / 30;
    || typed == Totp.CodeAt(c.hmac, key, step)
    || typed == Totp.CodeAt(c.hmac, key, step + 1)
    || typed == Totp.CodeAt(c.hmac, key, Before(step))
  }

  function Before(step: nat): nat { if step == 0 then 0 else step - 1 }

  lemma AcceptsShown(c: Crypto, key: seq<bv8>, code: string, now: nat)
    ensures Totp.Accepts(c.hmac, key, Totp.Trim(code), now) <==> Shown(c, key, Totp.Trim(code), now)
  {
    Totp.TrimmedOnce(code);
    var show := (step: nat) => Totp.CodeAt(c.hmac, key, step);
    ThreeSteps(show, Totp.Trim(code), now / 30);
  }

  lemma ThreeSteps(show: nat -> string, typed: string, step: nat)
    ensures (exists d :: -1 <= d <= 1 && typed == show(Totp.Nearby(step, d))) <==>
      typed == show(step) || typed == show(step + 1) || typed == show(Before(step))
  {
    assert Totp.Nearby(step, 0) == step && Totp.Nearby(step, 1) == step + 1 && Totp.Nearby(step, -1) == Before(step);
  }

  lemma LateSteps(issued: nat, now: nat)
    requires issued <= now <= issued + 30
    ensures issued / 30 == now / 30 || issued / 30 == Before(now / 30)
  {
    Totp.StepsWithinAPeriod(issued, now);
  }

  // What a typed code is worth against a record.
  datatype Worth = Nothing | Undecodable | Current | Recovery(hash: string) | Wrong

  function WorthOf(c: Crypto, r: Enrollment, code: Option<string>, now: nat): Worth {
    if code.None? || Totp.Trim(code.value) == "" then Nothing
    else if c.base32(r.secret).None? then Undecodable
    else if Shown(c, c.base32(r.secret).value, Totp.Trim(code.value), now) then Current
    else
      var hash := c.sha256(Normalize(Totp.Trim(code.value)));
      if hash in r.recoveryHashes then Recovery(hash) else Wrong
  }

  lemma VerdictIs(c: Crypto, r: Enrollment, code: Option<string>, now: nat)
    ensures VerifyCode(c, r, code, now) ==
      match WorthOf(c, r, code, now)
      case Nothing => Refused(CodeRequired)
      case Undecodable => Refused(BadSecret)
      case Current => ByTotp
      case Recovery(hash) => ByRecovery(Position(r.recoveryHashes, hash).value)
      case Wrong => Refused(InvalidCode)
  {
    if code.Some? && c.base32(r.secret).Some? { AcceptsShown(c, c.base32(r.secret).value, code.value, now); }
  }

  // The first hash of its kind less, and nothing else changed.
  ghost predicate OneLess(r: Enrollment, r': Enrollment, hash: string) {
    && r' == r.(recoveryHashes := r'.recoveryHashes)
    && exists pos :: 0 <= pos < |r.recoveryHashes| && r.recoveryHashes[pos] == hash && hash !in r.recoveryHashes[..pos]
                     && r'.recoveryHashes == r.recoveryHashes[..pos] + r.recoveryHashes[pos + 1..]
  }

  // ---------------------------------------------------------------------------
  // The gate and the disable
  // ---------------------------------------------------------------------------

  // A gate on a network without a record is open. Elsewhere it admits a current code and changes nothing,
  // admits the code of a remaining recovery hash and takes that hash, and refuses anything else for its
  // own reason.
  lemma GateAnswers(c: Crypto, s: State, e: Event, s': State)
    requires Step(c, s, e, s') && e.call.Require?
    ensures e.call.network !in s.store ==> e.reply == Admitted && s'.store == s.store
    ensures e.call.network in s.store ==>
      var n, r := e.call.network, s.store[e.call.network];
      match WorthOf(c, r, e.call.code, e.env.now)
      case Nothing => e.reply == Failed(CodeRequired) && s'.store == s.store
      case Undecodable => e.reply == Failed(BadSecret) && s'.store == s.store
      case Current => e.reply == Admitted && s'.store == s.store
      case Recovery(hash) =>
        e.reply == Admitted && n in s'.store && s'.store == s.store[n := s'.store[n]] && OneLess(r, s'.store[n], hash)
      case Wrong => e.reply == Failed(InvalidCode) && s'.store == s.store
  {
    if e.call.network in s.store { VerdictIs(c, s.store[e.call.network], e.call.code, e.env.now); }
  }

  // A disable takes the same codes, removes the record, and answers that the network is free exactly when
  // it holds no record afterwards.
  lemma DisableAnswers(c: Crypto, s: State, e: Event, s': State)
    requires Step(c, s, e, s') && e.call.Disable?
    ensures e.reply == Disabled <==> e.call.network !in s'.store
    ensures e.call.network !in s.store ==> e.reply == Disabled && s'.store == s.store
    ensures e.call.network in s.store ==>
      var n, r := e.call.network, s.store[e.call.network];
      if r.phase == Prepared then e.reply == Failed(StillPrepared) && s'.store == s.store
      else
        match WorthOf(c, r, Some(e.call.typed), e.env.now)
        case Nothing => e.reply == Failed(CodeRequired) && s'.store == s.store
        case Undecodable => e.reply == Failed(BadSecret) && s'.store == s.store
        case Current => e.reply == Disabled && s'.store == s.store - {n}
        case Recovery(_) => e.reply == Disabled && s'.store == s.store - {n}
        case Wrong => e.reply == Failed(InvalidCode) && s'.store == s.store
  {
    if e.call.network in s.store { VerdictIs(c, s.store[e.call.network], Some(e.call.typed), e.env.now); }
  }

  // A code the authenticator showed at most thirty seconds ago opens the gate, typed with any white space
  // around it, and spends nothing.
  lemma ShownCodeIsAdmitted(c: Crypto, s: State, e: Event, s': State, issued: nat)
    requires Step(c, s, e, s') && e.call.Require? && e.call.network in s.store && e.call.code.Some?
    requires c.base32(s.store[e.call.network].secret).Some? && issued <= e.env.now <= issued + 30
    requires var key := c.base32(s.store[e.call.network].secret).value;
      Totp.Trim(e.call.code.value) == Totp.CodeAt(c.hmac, key, issued / 30)
    ensures e.reply == Admitted && s'.store == s.store
  {
    var typed, key := Totp.Trim(e.call.code.value), c.base32(s.store[e.call.network].secret).value;
    LateSteps(issued, e.env.now);
    assert Totp.SixDigits(typed);
    assert WorthOf(c, s.store[e.call.network], e.call.code, e.env.now) == Current;
    GateAnswers(c, s, e, s');
  }

  // The same for a code and a secret that can be read, without more ado: which three steps, which hash.
  lemma AdmittedExactly(c: Crypto, s: State, e: Event, s': State)
    requires Step(c, s, e, s') && e.call.Require? && e.call.network in s.store && e.call.code.Some?
    requires Totp.Trim(e.call.code.value) != "" && c.base32(s.store[e.call.network].secret).Some?
    ensures var r, key := s.store[e.call.network], c.base32(s.store[e.call.network].secret).value;
      var typed, step := Totp.Trim(e.call.code.value), e.env.now / 30;
      var hash := c.sha256(Normalize(typed));
      var current :=
        || typed == Totp.CodeAt(c.hmac, key, step)
        || typed == Totp.CodeAt(c.hmac, key, step + 1)
        || typed == Totp.CodeAt(c.hmac, key, Before(step));
      && (e.reply == Admitted && s'.store == s.store <==> current)
      && (e.reply == Admitted && s'.store != s.store <==> !current && hash in r.recoveryHashes)
      && (e.reply == Failed(InvalidCode) <==> !current && hash !in r.recoveryHashes)
      && (e.reply == Admitted || (e.reply == Failed(InvalidCode) && s'.store == s.store))
  {
    GateAnswers(c, s, e, s');
    var n := e.call.network;
    if WorthOf(c, s.store[n], e.call.code, e.env.now).Recovery? {
      assert |s'.store[n].recoveryHashes| < |s.store[n].recoveryHashes|;
    }
  }

  // ---------------------------------------------------------------------------
  // Creation
  // ---------------------------------------------------------------------------

  function Hashes(c: Crypto, codes: seq<string>): seq<string> {
    seq(|codes|, i requires 0 <= i < |codes| => c.sha256(Normalize(codes[i])))
  }

  // An install or a prepare on a free network creates a prepared record with everything that was drawn,
  // the account, the time, and the hashes of the codes; on a network that is not free an install is
  // refused, and a prepare redelivers or is refused by phase.
  lemma EnrollAnswers(c: Crypto, s: State, e: Event, s': State)
    requires Step(c, s, e, s') && (e.call.Install? || e.call.Prepare?)
    ensures e.reply.Fresh? <==> e.call.network !in s.store
    ensures e.call.network in s.store ==> s'.store == s.store
    ensures e.call.network in s.store && (e.call.Install? || s.store[e.call.network].phase == Committed) ==>
      e.reply == Failed(AlreadyEnrolled)
    ensures e.call.network !in s.store ==>
      && e.call.network in s'.store && s'.store == s.store[e.call.network := s'.store[e.call.network]]
      && s'.store[e.call.network] == Enrollment(
           secret := e.env.secret, recoveryHashes := Hashes(c, e.env.codes), createdAt := e.env.now,
           phase := Prepared, txid := e.env.txid, preparedCodes := e.env.codes,
           preparedAccount := e.call.account, processNonce := e.env.nonce)
  {
    if e.call.network !in s.store {
      assert s'.store[e.call.network].recoveryHashes == Hashes(c, e.env.codes);
    }
  }

  // While an identity stays installed, nothing of its record changes but what commit clears and gates spend.
  lemma {:induction false} RecordKept(
    c: Crypto, states: seq<State>, log: seq<Event>, i: nat, j: nat, n: string, x: string)
    requires Run(c, states, log) && i <= j < |states| && Holds(states[i], n, x) && Holds(states[j], n, x)
    ensures states[j].store[n].createdAt == states[i].store[n].createdAt
    ensures states[j].store[n].phase == Prepared ==>
      states[j].store[n] == states[i].store[n].(recoveryHashes := states[j].store[n].recoveryHashes)
  {
    if i < j {
      HeldBetween(c, states, log, i, j - 1, j, n, x);
      RecordKept(c, states, log, i, j - 1, n, x);
      FateAt(c, states, log, j - 1, n);
    }
  }

  // ---------------------------------------------------------------------------
  // Recovery codes over a run
  // ---------------------------------------------------------------------------

  // From its creation on an enrollment admits a recovery code, where it is not current, exactly as long as
  // its hash has been spent less often than it was issued.
  lemma CodeAdmitsExactly(c: Crypto, states: seq<State>, log: seq<Event>, k: nat, i: nat)
    requires Run(c, states, log) && k < i < |log| && Creates(states[k].store, log[k].call)
    requires Holds(states[i], log[k].call.network, log[k].env.txid)
    requires log[i].call.Require? && log[i].call.network == log[k].call.network && log[i].call.code.Some?
    requires Totp.Trim(log[i].call.code.value) != "" && c.base32(log[k].env.secret).Some?
    requires !Shown(c, c.base32(log[k].env.secret).value, Totp.Trim(log[i].call.code.value), log[i].env.now)
    ensures var hash := c.sha256(Normalize(Totp.Trim(log[i].call.code.value)));
      var spent := Spent(c, states, log, k + 1, i, log[k].call.network)[hash];
      log[i].reply == if spent < multiset(Hashes(c, log[k].env.codes))[hash] then Admitted else Failed(InvalidCode)
  {
    LeftOfCreated(c, states, log, k, i);
    assert StepAt(c, states, log, i);
    GateTakesHash(c, states[i], log[i], states[i + 1]);
  }

  lemma LeftOfCreated(c: Crypto, states: seq<State>, log: seq<Event>, k: nat, i: nat)
    requires Run(c, states, log) && k < i < |states| && Creates(states[k].store, log[k].call)
    requires Holds(states[i], log[k].call.network, log[k].env.txid)
    ensures var n := log[k].call.network;
      && states[i].store[n].secret == log[k].env.secret
      && multiset(Hashes(c, log[k].env.codes))
         == multiset(states[i].store[n].recoveryHashes) + Spent(c, states, log, k + 1, i, n)
  {
    var n, x := log[k].call.network, log[k].env.txid;
    assert StepAt(c, states, log, k);
    EnrollAnswers(c, states[k], log[k], states[k + 1]);
    SameIdentitySameSecret(c, states, log, k + 1, i, n, x);
    RecoveryCodesConserved(c, states, log, k + 1, i, n, x);
  }

  lemma GateTakesHash(c: Crypto, s: State, e: Event, s': State)
    requires Step(c, s, e, s') && e.call.Require? && e.call.network in s.store && e.call.code.Some?
    requires Totp.Trim(e.call.code.value) != "" && c.base32(s.store[e.call.network].secret).Some?
    requires !Shown(c, c.base32(s.store[e.call.network].secret).value, Totp.Trim(e.call.code.value), e.env.now)
    ensures var hash := c.sha256(Normalize(Totp.Trim(e.call.code.value)));
      var left := multiset(s.store[e.call.network].recoveryHashes)[hash];
      e.reply == if left > 0 then Admitted else Failed(InvalidCode)
  {
    GateAnswers(c, s, e, s');
  }

  // ---------------------------------------------------------------------------
  // Material
  // ---------------------------------------------------------------------------

  predicate HandsOut(reply: Reply) { reply.Fresh? || reply.Existing? || reply.IsPrepared? }

  // Whatever hands material out hands out that of the record as it then stands: its network, identity,
  // secret and codes, and a URI from which an authenticator reads that secret and account.
  lemma HandleIs(c: Crypto, s: State, e: Event, s': State)
    requires Inv(s) && Step(c, s, e, s') && HandsOut(e.reply)
    ensures e.call.network in s'.store
    ensures var r, handle := s'.store[e.call.network], e.reply.handle;
      && r.phase == Prepared && handle.network == e.call.network && handle.txid == r.txid
      && handle.material.secret == r.secret && handle.material.codes == r.preparedCodes
      && (Otpauth.Base32(r.secret) ==>
            Otpauth.ReadUri(handle.material.uri)
            == Some(Otpauth.Provisioning("totp", Otpauth.ISSUER, r.preparedAccount, r.secret, Otpauth.ISSUER, "SHA1",
                                         6, 30)))
  {
    DeliveredMeansPrepared(c, s, e, s', e.reply.handle.txid);
    var r := s'.store[e.call.network];
    HandleUri(c, s, e, s');
    if Otpauth.Base32(r.secret) { Otpauth.UriRoundTrip(r.secret, r.preparedAccount); }
  }

  lemma HandleUri(c: Crypto, s: State, e: Event, s': State)
    requires Step(c, s, e, s') && HandsOut(e.reply) && e.call.network in s'.store
    ensures var r := s'.store[e.call.network];
      e.reply.handle == Handle(e.call.network, r.txid,
                               Material(r.secret, Otpauth.Uri(r.secret, r.preparedAccount), r.preparedCodes))
  {
  }

  // In a run, what is handed out under an identity is what was drawn when it was created, for the account
  // given then, and the codes are those whose hashes were installed.
  lemma HandleIsAsCreated(c: Crypto, states: seq<State>, log: seq<Event>, k: nat, i: nat)
    requires Run(c, states, log) && k <= i < |log| && Creates(states[k].store, log[k].call)
    requires HandsOut(log[i].reply) && log[i].reply.handle.txid == log[k].env.txid
    ensures var handle := log[i].reply.handle;
      && handle.network == log[k].call.network
      && handle.material.secret == log[k].env.secret && handle.material.codes == log[k].env.codes
      && handle.network in states[k + 1].store
      && states[k + 1].store[handle.network].recoveryHashes == Hashes(c, handle.material.codes)
      && (Otpauth.Base32(log[k].env.secret) ==>
            Otpauth.ReadUri(handle.material.uri)
            == Some(Otpauth.Provisioning("totp", Otpauth.ISSUER, log[k].call.account, log[k].env.secret, Otpauth.ISSUER,
                                         "SHA1", 6, 30)))
  {
    var n, x := log[k].call.network, log[k].env.txid;
    assert StepAt(c, states, log, k) && StepAt(c, states, log, i);
    InvAlong(c, states, log, i);
    EnrollAnswers(c, states[k], log[k], states[k + 1]);
    HandleIs(c, states[i], log[i], states[i + 1]);
    HeldWhereCreated(c, states, log, k, i + 1, log[i].call.network);
    SameIdentitySameSecret(c, states, log, k + 1, i + 1, n, x);
  }

  lemma HeldWhereCreated(c: Crypto, states: seq<State>, log: seq<Event>, k: nat, j: nat, m: string)
    requires Run(c, states, log) && k < j < |states| && Creates(states[k].store, log[k].call)
    requires Holds(states[j], m, log[k].env.txid)
    ensures m == log[k].call.network
  {
    if m != log[k].call.network {
      assert StepAt(c, states, log, k);
      EnrollAnswers(c, states[k], log[k], states[k + 1]);
      InvAlong(c, states, log, k + 1);
      assert !Holds(states[k + 1], m, log[k].env.txid);
      NeverReturnsHere(c, states, log, k + 1, j, m, log[k].env.txid);
    }
  }

  // ---------------------------------------------------------------------------
  // Settlement and query
  // ---------------------------------------------------------------------------

  // A settlement that names the installed identity and secret commits or aborts a prepared record as it
  // asks, and reports a committed one as committed; any other answers absent. A committed record has the
  // codes, account and process of its preparation cleared, and nothing else.
  lemma SettleAnswers(c: Crypto, s: State, e: Event, s': State)
    requires Step(c, s, e, s') && e.call.Settle?
    ensures var n := e.call.network;
      if !(n in s.store && s.store[n].txid == e.call.txid && s.store[n].secret == e.call.secret)
      then e.reply == Settled(NowAbsent) && s'.store == s.store
      else if s.store[n].phase == Committed then e.reply == Settled(NowCommitted) && s'.store == s.store
      else if e.call.request == Abort then e.reply == Settled(NowAbsent) && s'.store == s.store - {n}
      else
        && e.reply == Settled(NowCommitted)
        && s'.store == s.store[n := s.store[n].(
             phase := Committed, preparedCodes := [], preparedAccount := [], processNonce := "")]
  {
  }

  // A query changes nothing and tells the phase of the record of that identity, if there is one.
  lemma QueryAnswers(c: Crypto, s: State, e: Event, s': State)
    requires Inv(s) && Step(c, s, e, s') && e.call.Query?
    ensures s'.store == s.store
    ensures var n := e.call.network;
      if n !in s.store || s.store[n].txid != e.call.txid then e.reply == IsAbsent
      else if s.store[n].phase == Committed then e.reply == IsCommitted
      else if s.store[n].preparedAccount == [] then e.reply == Failed(NoAccount)
      else e.reply.IsPrepared?
  {
    if e.call.network in s.store { assert RecordOk(s, e.call.network); }
  }
}
