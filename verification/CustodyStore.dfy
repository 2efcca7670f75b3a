// One device's custody store: which networks hold an authenticator lock, in which phase of its
// durable hand-off, and what each entry point does to that map.
module CustodyStore {
  import opened Prelude
  import Totp
  import Otpauth

  datatype EnrollmentPhase = Prepared | Committed

  datatype Enrollment = Enrollment(
    secret: string,
    recoveryHashes: seq<string>,
    createdAt: nat,
    phase: EnrollmentPhase,
    txid: string,
    preparedCodes: seq<string>,
    preparedAccount: seq<byte>,
    processNonce: string)

  type Store = map<string, Enrollment>

  // HMAC-SHA1, base32 decoding and SHA-256 are not modelled; they are given.
  datatype Crypto = Crypto(hmac: Totp.Hmac, base32: string -> Option<seq<bv8>>, sha256: string -> string)

  // What one call draws from its surroundings: randomness and the clock.
  datatype Env = Env(secret: string, codes: seq<string>, txid: string, nonce: string, now: nat)

  datatype Material = Material(secret: string, uri: string, codes: seq<string>)
  datatype Handle = Handle(network: string, txid: string, material: Material)

  datatype Request = Commit | Abort
  datatype Settlement = NowCommitted | NowAbsent

  datatype Call =
    | Install(network: string, account: seq<byte>)
    | Prepare(network: string, account: seq<byte>)
    | Settle(network: string, txid: string, secret: string, request: Request)
    | Require(network: string, code: Option<string>)
    | Disable(network: string, typed: string)
    | Query(network: string, txid: string)

  datatype Failure =
    | AlreadyEnrolled | NoIdentity | NoSecret | NoCodes | NoAccount
    | CodeRequired | BadSecret | InvalidCode | StillPrepared | Io

  datatype Reply =
    | Fresh(handle: Handle)
    | Existing(handle: Handle)
    | Settled(settlement: Settlement)
    | Admitted
    | Disabled
    | IsPrepared(handle: Handle)
    | IsCommitted
    | IsAbsent
    | Failed(failure: Failure)

  // The store after a call, its answer, and whether the call wrote the file.
  datatype Outcome = Outcome(store: Store, reply: Reply, writes: bool)

  // ---------------------------------------------------------------------------
  // Codes
  // ---------------------------------------------------------------------------

  datatype Verdict = ByTotp | ByRecovery(pos: nat) | Refused(failure: Failure)

  predicate AsciiAlphanumeric(c: char) { '0' <= c <= '9' || 'a' <= c <= 'z' || 'A' <= c <= 'Z' }

  function Lower(c: char): char {
    if 'A' <= c <= 'Z' then (c as int + 32) as char else c
  }

  // Separators and case do not matter in a recovery code.
  function Normalize(code: string): string {
    if code == [] then []
    else (if AsciiAlphanumeric(code[0]) then [Lower(code[0])] else []) + Normalize(code[1..])
  }

  function HashCode(c: Crypto, code: string): string { c.sha256(Normalize(code)) }

  function Position(hashes: seq<string>, h: string): (r: Option<nat>)
    ensures r.Some? ==> r.value < |hashes| && hashes[r.value] == h && h !in hashes[..r.value]
    ensures r.None? <==> h !in hashes
  {
    if hashes == [] then None
    else if hashes[0] == h then Some(0)
    else
      assert hashes == [hashes[0]] + hashes[1..];
      match Position(hashes[1..], h)
      case None => None
      case Some(i) =>
        assert hashes[..i + 1] == [hashes[0]] + hashes[1..][..i];
        Some(i + 1)
  }

  function VerifyCode(c: Crypto, e: Enrollment, code: Option<string>, now: nat): Verdict {
    if code.None? || Totp.Trim(code.value) == "" then Refused(CodeRequired)
    else if c.base32(e.secret).None? then Refused(BadSecret)
    else
      var typed := Totp.Trim(code.value);
      if Totp.Accepts(c.hmac, c.base32(e.secret).value, typed, now) then ByTotp
      else match Position(e.recoveryHashes, HashCode(c, typed))
           case Some(pos) => ByRecovery(pos)
           case None => Refused(InvalidCode)
  }

  // ---------------------------------------------------------------------------
  // What each entry point does
  // ---------------------------------------------------------------------------

  function NewRecord(c: Crypto, account: seq<byte>, env: Env): Enrollment {
    Enrollment(env.secret, seq(|env.codes|, i requires 0 <= i < |env.codes| => HashCode(c, env.codes[i])),
               env.now, Prepared, env.txid, env.codes, account, env.nonce)
  }

  function HandleOf(network: string, txid: string, secret: string, account: seq<byte>, codes: seq<string>): Handle {
    Handle(network, txid, Material(secret, Otpauth.Uri(secret, account), codes))
  }

  // Redelivery of one prepared record, or why it cannot be redelivered.
  function Redeliver(network: string, e: Enrollment): Reply {
    if e.txid == "" then Failed(NoIdentity)
    else if e.secret == "" then Failed(NoSecret)
    else if e.preparedCodes == [] then Failed(NoCodes)
    else if e.preparedAccount == [] then Failed(NoAccount)
    else Existing(HandleOf(network, e.txid, e.secret, e.preparedAccount, e.preparedCodes))
  }

  function CommitRecord(e: Enrollment): Enrollment {
    e.(phase := Committed, preparedCodes := [], preparedAccount := [], processNonce := "")
  }

  function SpendRecord(e: Enrollment, pos: nat): Enrollment
    requires pos < |e.recoveryHashes|
  {
    e.(recoveryHashes := e.recoveryHashes[..pos] + e.recoveryHashes[pos + 1..])
  }

  predicate Names(s: Store, network: string, txid: string, secret: string) {
    network in s && s[network].txid == txid && s[network].secret == secret
  }

  function Unchanged(s: Store, reply: Reply): Outcome { Outcome(s, reply, false) }

  function Apply(c: Crypto, s: Store, call: Call, env: Env): (out: Outcome)
    ensures !out.writes ==> out.store == s
  {
    match call
    case Install(n, account) =>
      if n in s then Unchanged(s, Failed(AlreadyEnrolled)) else Create(c, s, n, account, env)
    case Prepare(n, account) =>
      if n !in s then Create(c, s, n, account, env)
      else if s[n].phase.Prepared? then Unchanged(s, Redeliver(n, s[n]))
      else Unchanged(s, Failed(AlreadyEnrolled))
    case Settle(n, txid, secret, request) =>
      if !Names(s, n, txid, secret) then Unchanged(s, Settled(NowAbsent))
      else if s[n].phase.Committed? then Unchanged(s, Settled(NowCommitted))
      else if request.Commit? then Outcome(s[n := CommitRecord(s[n])], Settled(NowCommitted), true)
      else Outcome(s - {n}, Settled(NowAbsent), true)
    case Require(n, code) =>
      if n !in s then Unchanged(s, Admitted)
      else (match VerifyCode(c, s[n], code, env.now)
            case ByTotp => Unchanged(s, Admitted)
            case ByRecovery(pos) => Outcome(s[n := SpendRecord(s[n], pos)], Admitted, true)
            case Refused(f) => Unchanged(s, Failed(f)))
    case Disable(n, typed) =>
      if n !in s then Unchanged(s, Disabled)
      else if s[n].phase.Prepared? then Unchanged(s, Failed(StillPrepared))
      else (match VerifyCode(c, s[n], Some(typed), env.now)
            case Refused(f) => Unchanged(s, Failed(f))
            case _ => Outcome(s - {n}, Disabled, true))
    case Query(n, txid) =>
      if n !in s || s[n].txid != txid then Unchanged(s, IsAbsent)
      else if s[n].phase.Committed? then Unchanged(s, IsCommitted)
      else (match Redeliver(n, s[n])
            case Existing(h) => Unchanged(s, IsPrepared(h))
            case failed => Unchanged(s, failed))
  }

  function Create(c: Crypto, s: Store, n: string, account: seq<byte>, env: Env): Outcome {
    Outcome(s[n := NewRecord(c, account, env)],
            Fresh(HandleOf(n, env.txid, env.secret, account, env.codes)), true)
  }

  // ---------------------------------------------------------------------------
  // The entry points as the source runs them: load the map, check it, change it, write it back.
  // Each is one transaction; CustodyLocking takes them apart again.
  // ---------------------------------------------------------------------------

  class CustodyFile {
    var networks: Store

    constructor ()
      ensures networks == map[]
    {
      networks := map[];
    }

    method CreateProvisionalEnroll(c: Crypto, network: string, account: seq<byte>, env: Env, loaded: Store)
      returns (reply: Reply)
      requires loaded == networks
      modifies this
      ensures Apply(c, old(networks), Install(network, account), env)
           == Outcome(networks, reply, networks != old(networks))
    {
      if network in loaded {
        return Failed(AlreadyEnrolled);
      }
      var hashes := [];
      for i := 0 to |env.codes|
        invariant |hashes| == i && forall k :: 0 <= k < i ==> hashes[k] == HashCode(c, env.codes[k])
      {
        hashes := hashes + [HashCode(c, env.codes[i])];
      }
      var uri := Otpauth.Uri(env.secret, account);
      var record := Enrollment(env.secret, hashes, env.now, Prepared, env.txid, env.codes, account, env.nonce);
      assert hashes == NewRecord(c, account, env).recoveryHashes;
      networks := loaded[network := record];
      return Fresh(Handle(network, env.txid, Material(env.secret, uri, env.codes)));
    }

    method PrepareOrRecover(c: Crypto, network: string, account: seq<byte>, env: Env) returns (reply: Reply)
      modifies this
      ensures var out := Apply(c, old(networks), Prepare(network, account), env);
        networks == out.store && reply == out.reply
    {
      var store := networks;
      if network !in store {
        reply := CreateProvisionalEnroll(c, network, account, env, store);
        return;
      }
      if store[network].phase == Prepared {
        return Redeliver(network, store[network]);
      }
      return Failed(AlreadyEnrolled);
    }

    method SettleExact(c: Crypto, network: string, txid: string, secret: string, request: Request, env: Env)
      returns (reply: Reply)
      modifies this
      ensures var out := Apply(c, old(networks), Settle(network, txid, secret, request), env);
        networks == out.store && reply == out.reply
    {
      var store := networks;
      if network !in store { return Settled(NowAbsent); }
      var installed := store[network];
      if installed.secret != secret || installed.txid != txid { return Settled(NowAbsent); }
      if installed.phase != Prepared { return Settled(NowCommitted); }
      match request
      case Commit =>
        installed := installed.(phase := Committed);
        installed := installed.(preparedCodes := []);
        installed := installed.(preparedAccount := []);
        installed := installed.(processNonce := "");
        networks := store[network := installed];
        return Settled(NowCommitted);
      case Abort =>
        networks := store - {network};
        return Settled(NowAbsent);
    }

    method RequireAt(c: Crypto, network: string, code: Option<string>, env: Env) returns (reply: Reply)
      modifies this
      ensures var out := Apply(c, old(networks), Require(network, code), env);
        networks == out.store && reply == out.reply
    {
      var store := networks;
      if network !in store { return Admitted; }
      var enr := store[network];
      match VerifyCode(c, enr, code, env.now)
      case Refused(f) => return Failed(f);
      case ByTotp => return Admitted;
      case ByRecovery(pos) =>
        enr := enr.(recoveryHashes := enr.recoveryHashes[..pos] + enr.recoveryHashes[pos + 1..]);
        networks := store[network := enr];
        return Admitted;
    }

    method DisableAt(c: Crypto, network: string, typed: string, env: Env) returns (reply: Reply)
      modifies this
      ensures var out := Apply(c, old(networks), Disable(network, typed), env);
        networks == out.store && reply == out.reply
    {
      var store := networks;
      if network !in store { return Disabled; }
      if store[network].phase == Prepared { return Failed(StillPrepared); }
      var verdict := VerifyCode(c, store[network], Some(typed), env.now);
      if verdict.Refused? { return Failed(verdict.failure); }
      networks := store - {network};
      return Disabled;
    }

    method TransactionAt(c: Crypto, network: string, txid: string, env: Env) returns (reply: Reply)
      ensures reply == Apply(c, networks, Query(network, txid), env).reply
    {
      var store := networks;
      if network !in store { return IsAbsent; }
      var enrollment := store[network];
      if enrollment.txid != txid { return IsAbsent; }
      if enrollment.phase == Prepared {
        var redelivered := Redeliver(network, enrollment);
        return if redelivered.Existing? then IsPrepared(redelivered.handle) else redelivered;
      }
      return IsCommitted;
    }
  }
}
