// The configuration file: load, mutate, recheck and replace under one lease, among other callers and
// among writers that do not take the lease.
module ConfigTransaction {
  import opened Prelude

  type Bytes = seq<byte>
  type Config(==, !new)
  type Mutation = Config -> Option<Config>

  // ---------------------------------------------------------------------------
  // What a file means
  // ---------------------------------------------------------------------------

  // Reading and writing JSON, and the version a current configuration carries.
  datatype Codec = Codec(
    utf8: Bytes -> bool, parse: Bytes -> Option<Config>, current: Config -> bool, render: Config -> Bytes,
    initial: Config)

  // The configuration a file stands for: the defaults where it is absent or corrupt.
  function ConfigOf(codec: Codec, file: Option<Bytes>): Config {
    if file.None? || codec.parse(file.value).None? then codec.initial else codec.parse(file.value).value
  }

  // A load refuses bytes that are not UTF-8 and a configuration of another version.
  predicate Loadable(codec: Codec, file: Option<Bytes>) {
    file.Some? ==>
      && codec.utf8(file.value)
      && (codec.parse(file.value).Some? ==> codec.current(codec.parse(file.value).value))
  }

  // What is rendered parses back.
  ghost predicate RoundTrips(codec: Codec) { forall c :: codec.parse(codec.render(c)) == Some(c) }

  // ---------------------------------------------------------------------------
  // The calls and their effects
  // ---------------------------------------------------------------------------

  datatype Call = Save(config: Config) | Transaction(mutate: Mutation)

  // What changed the file: a writer without the lease, a quarantine, or the replacement by call t.
  datatype Effect = Foreign(bytes: Option<Bytes>) | Quarantined | Stored(t: nat)

  // The configuration a call leaves when it alone meets a file.
  function Serially(codec: Codec, call: Call, file: Option<Bytes>): Option<Config> {
    match call
    case Save(config) => Some(config)
    case Transaction(mutate) => mutate(ConfigOf(codec, file))
  }

  function Apply(codec: Codec, calls: seq<Call>, e: Effect, file: Option<Bytes>): Option<Bytes> {
    match e
    case Foreign(bytes) => bytes
    case Quarantined => None
    case Stored(t) =>
      if t < |calls| && Serially(codec, calls[t], file).Some?
      then Some(codec.render(Serially(codec, calls[t], file).value)) else file
  }

  // A save leaves what it was given. A transaction leaves the mutation of what the file parses as, or of the
  // defaults where there is none or it does not parse, and the file itself where the mutation refuses.
  lemma ApplyIs(codec: Codec, calls: seq<Call>, t: nat, file: Option<Bytes>)
    requires t < |calls|
    ensures calls[t].Save? ==> Apply(codec, calls, Stored(t), file) == Some(codec.render(calls[t].config))
    ensures calls[t].Transaction? ==>
      var parsed := if file.Some? then codec.parse(file.value) else None;
      var config := if parsed.Some? then parsed.value else codec.initial;
      var mutated := calls[t].mutate(config);
      Apply(codec, calls, Stored(t), file) == if mutated.Some? then Some(codec.render(mutated.value)) else file
    ensures forall bytes :: Apply(codec, calls, Foreign(bytes), file) == bytes
    ensures Apply(codec, calls, Quarantined, file) == None
  {
  }

  function Replay(codec: Codec, calls: seq<Call>, log: seq<Effect>, file: Option<Bytes>): Option<Bytes> {
    if log == [] then file
    else Apply(codec, calls, log[|log| - 1], Replay(codec, calls, log[..|log| - 1], file))
  }

  // ---------------------------------------------------------------------------
  // The sequential form
  // ---------------------------------------------------------------------------

  // What the environment decides: whether reads and writes fail, and whether a rename works.
  datatype Env = Env(fails: bool, quarantines: bool)

  // What a writer without the lease does to the file, if anything, at four moments of a transaction.
  datatype Meanwhile = Meanwhile(
    afterRead: Option<Option<Bytes>>, afterParse: Option<Option<Bytes>>, afterLoad: Option<Option<Bytes>>,
    afterRecheck: Option<Option<Bytes>>)

  function Meet(write: Option<Option<Bytes>>, file: Option<Bytes>): Option<Bytes> {
    if write.Some? then write.value else file
  }

  // A load that reads a corrupt file sets aside what stands there when it has parsed it.
  predicate MovesAside(codec: Codec, file: Option<Bytes>, foreign: Meanwhile, env: Env) {
    file.Some? && codec.parse(file.value).None? && env.quarantines && Meet(foreign.afterRead, file).Some?
  }

  // The file when a load tests whether it is still there; an absent file is not tested again.
  function FileAtTest(codec: Codec, file: Option<Bytes>, foreign: Meanwhile, env: Env): Option<Bytes> {
    if file.None? then None
    else Meet(foreign.afterParse, if MovesAside(codec, file, foreign, env) then None else Meet(foreign.afterRead, file))
  }

  function BaselineOf(read: Option<Bytes>, tested: Option<Bytes>): Option<Bytes> {
    if tested.Some? then read else None
  }

  // The file a load leaves that answers nothing: as it was where it was not read or is not UTF-8, and as a
  // foreign writer left it where the version is refused.
  function FileRefused(codec: Codec, file: Option<Bytes>, foreign: Meanwhile, env: Env): Option<Bytes> {
    if env.fails || file.None? || !codec.utf8(file.value) then file else Meet(foreign.afterRead, file)
  }

  // The last bytes before the recheck of a transaction that got that far.
  function FileAtRecheck(codec: Codec, file: Option<Bytes>, foreign: Meanwhile, env: Env): Option<Bytes> {
    Meet(foreign.afterLoad, FileAtTest(codec, file, foreign, env))
  }

  predicate PassesRecheck(codec: Codec, file: Option<Bytes>, mutate: Mutation, foreign: Meanwhile, env: Env) {
    && !env.fails && Loadable(codec, file) && mutate(ConfigOf(codec, file)).Some?
    && FileAtRecheck(codec, file, foreign, env) == BaselineOf(file, FileAtTest(codec, file, foreign, env))
  }

  // The file a failed transaction leaves.
  function FileLeft(codec: Codec, file: Option<Bytes>, mutate: Mutation, foreign: Meanwhile, env: Env): Option<Bytes> {
    if env.fails || !Loadable(codec, file) then FileRefused(codec, file, foreign, env)
    else if PassesRecheck(codec, file, mutate, foreign, env)
    then Meet(foreign.afterRecheck, FileAtRecheck(codec, file, foreign, env))
    else FileAtRecheck(codec, file, foreign, env)
  }

  class ConfigFile {
    var file: Option<Bytes>
    var corrupt: Option<Bytes>

    constructor (bytes: Option<Bytes>)
      ensures file == bytes && corrupt == None
    {
      file, corrupt := bytes, None;
    }

    // Loads the configuration the file stood for when it was read. Its baseline is those bytes, or absence
    // where the file is gone when that is tested at the end. A corrupt read moves whatever stands at the
    // path by then to the quarantine path, bytes and all.
    method LoadLocked(codec: Codec, foreign: Meanwhile, env: Env) returns (r: Option<(Config, Option<Bytes>)>)
      modifies this
      ensures r.Some? <==> !env.fails && Loadable(codec, old(file))
      ensures r.Some? ==> r.value == (ConfigOf(codec, old(file)), BaselineOf(old(file), file))
      ensures r.Some? ==> file == FileAtTest(codec, old(file), foreign, env)
      ensures r.None? ==> file == FileRefused(codec, old(file), foreign, env)
      ensures corrupt == if r.Some? && MovesAside(codec, old(file), foreign, env)
                         then Meet(foreign.afterRead, old(file)) else old(corrupt)
    {
      if env.fails { return None; }
      if file.None? { return Some((codec.initial, None)); }
      var bytes := file.value;
      if !codec.utf8(bytes) { return None; }
      file := Meet(foreign.afterRead, file);
      var config := codec.initial;
      match codec.parse(bytes) {
        case Some(parsed) =>
          if !codec.current(parsed) { return None; }
          config := parsed;
        case None =>
          if env.quarantines && file.Some? { file, corrupt := None, file; }
      }
      file := Meet(foreign.afterParse, file);
      return Some((config, if file.Some? then Some(bytes) else None));
    }

    method SaveLocked(codec: Codec, config: Config, env: Env) returns (ok: bool)
      modifies this`file
      ensures ok == !env.fails
      ensures file == if ok then Some(codec.render(config)) else old(file)
    {
      if env.fails { return false; }
      file := Some(codec.render(config));
      return true;
    }

    // A whole transaction among foreign writes. Success leaves exactly the mutation of what was read, and
    // comes exactly when the last bytes before the recheck are the baseline; whatever is written after the
    // recheck is overwritten. A failure leaves the file as the load and the foreign writers left it.
    method TransactionAt(codec: Codec, mutate: Mutation, foreign: Meanwhile, env: Env, saving: Env) returns (ok: bool)
      modifies this
      ensures ok <==> !saving.fails && PassesRecheck(codec, old(file), mutate, foreign, env)
      ensures ok && old(file).Some? ==>
        var bytes := old(file).value;
        codec.utf8(bytes) && (codec.parse(bytes).Some? ==> codec.current(codec.parse(bytes).value))
      ensures ok ==> file == Some(codec.render(mutate(ConfigOf(codec, old(file))).value))
      ensures !ok ==> file == FileLeft(codec, old(file), mutate, foreign, env)
    {
      var loaded := LoadLocked(codec, foreign, env);
      if loaded.None? { return false; }
      var (config, baseline) := loaded.value;
      var mutated := mutate(config);
      file := Meet(foreign.afterLoad, file);
      if mutated.None? { return false; }
      if file != baseline { return false; }
      file := Meet(foreign.afterRecheck, file);
      ok := SaveLocked(codec, mutated.value, saving);
    }
  }

  // ---------------------------------------------------------------------------
  // The concurrent form
  // ---------------------------------------------------------------------------

  // Where a call stands. The lease is held from Locked to Written.
  datatype Phase =
    | Idle
    | Locked
    | Read(bytes: Bytes)
    | Parsed(config: Config, bytes: Bytes)
    | Ready(config: Config, baseline: Option<Bytes>)
    | Mutated(config: Config, baseline: Option<Bytes>)
    | Checked(config: Config)
    | Written
    | Done(ok: bool)
    | Dead(stored: bool)

  // The file, the lease, each call's phase, the effects so far, and the calls in the order they got the lease.
  datatype World = World(
    file: Option<Bytes>, holder: Option<nat>, phases: seq<Phase>, log: seq<Effect>, grants: seq<nat>)

  datatype Action = Step(t: nat, env: Env) | Crash(t: nat) | Write(bytes: Option<Bytes>)

  function At(w: World, t: nat, p: Phase): World
    requires t < |w.phases|
  {
    w.(phases := w.phases[t := p])
  }

  // Leaving a call gives the lease up.
  function Leave(w: World, t: nat, p: Phase): World
    requires t < |w.phases|
  {
    At(w, t, p).(holder := None)
  }

  function Replace(w: World, t: nat, bytes: Bytes): World
    requires t < |w.phases|
  {
    At(w, t, Written).(file := Some(bytes), log := w.log + [Stored(t)])
  }

  function Move(codec: Codec, calls: seq<Call>, w: World, t: nat, env: Env): World
    requires t < |w.phases| == |calls|
  {
    match w.phases[t]
    case Idle =>
      if env.fails then At(w, t, Done(false))
      else if w.holder.Some? then w
      else At(w, t, Locked).(holder := Some(t), grants := w.grants + [t])
    case Locked =>
      if env.fails then Leave(w, t, Done(false))
      else (match calls[t]
            case Save(config) => Replace(w, t, codec.render(config))
            case Transaction(_) =>
              if w.file.None? then At(w, t, Ready(codec.initial, None))
              else if codec.utf8(w.file.value) then At(w, t, Read(w.file.value))
              else Leave(w, t, Done(false)))
    case Read(bytes) =>
      (match codec.parse(bytes)
       case Some(config) => if codec.current(config) then At(w, t, Parsed(config, bytes)) else Leave(w, t, Done(false))
       case None =>
         if env.quarantines && w.file.Some?
         then At(w, t, Parsed(codec.initial, bytes)).(file := None, log := w.log + [Quarantined])
         else At(w, t, Parsed(codec.initial, bytes)))
    case Parsed(config, bytes) => At(w, t, Ready(config, if w.file.Some? then Some(bytes) else None))
    case Ready(config, baseline) =>
      var mutated := if calls[t].Transaction? then calls[t].mutate(config) else None;
      if mutated.Some? then At(w, t, Mutated(mutated.value, baseline)) else Leave(w, t, Done(false))
    case Mutated(config, baseline) =>
      if env.fails || w.file != baseline then Leave(w, t, Done(false)) else At(w, t, Checked(config))
    case Checked(config) =>
      if env.fails then Leave(w, t, Done(false)) else Replace(w, t, codec.render(config))
    case Written => Leave(w, t, Done(true))
    case Done(_) => w
    case Dead(_) => w
  }

  // The replacement has happened.
  predicate HasStored(p: Phase) { p.Written? || (p.Done? && p.ok) || (p.Dead? && p.stored) }

  function Next(codec: Codec, calls: seq<Call>, w: World, a: Action): (w': World)
    requires |w.phases| == |calls|
    ensures |w'.phases| == |calls|
  {
    match a
    case Step(t, env) => if t < |calls| then Move(codec, calls, w, t, env) else w
    case Crash(t) =>
      if t >= |calls| || w.phases[t].Done? || w.phases[t].Dead? then w
      else if w.holder == Some(t) then Leave(w, t, Dead(HasStored(w.phases[t])))
      else At(w, t, Dead(HasStored(w.phases[t])))
    case Write(bytes) => w.(file := bytes, log := w.log + [Foreign(bytes)])
  }

  function After(codec: Codec, calls: seq<Call>, w: World, run: seq<Action>): (w': World)
    requires |w.phases| == |calls|
    ensures |w'.phases| == |calls|
    decreases |run|
  {
    if run == [] then w else After(codec, calls, Next(codec, calls, w, run[0]), run[1..])
  }

  function Start(calls: seq<Call>, file: Option<Bytes>): World {
    World(file, None, seq(|calls|, _ => Idle), [], [])
  }

  // ---------------------------------------------------------------------------
  // The lease
  // ---------------------------------------------------------------------------

  predicate Holds(p: Phase) { !p.Idle? && !p.Done? && !p.Dead? }

  // Exactly the holder is between Locked and Written, and it is the last to have been granted the lease.
  ghost predicate Leased(w: World) {
    && (forall t :: 0 <= t < |w.phases| ==> (Holds(w.phases[t]) <==> w.holder == Some(t)))
    && (w.holder.Some? ==> w.grants != [] && w.holder.value == w.grants[|w.grants| - 1])
    && (forall i :: 0 <= i < |w.grants| ==> w.grants[i] < |w.phases| && !w.phases[w.grants[i]].Idle?)
    && (forall i, j :: 0 <= i < j < |w.grants| ==> w.grants[i] != w.grants[j])
  }

  // The ways a step can move call t: it takes the lease, works under it, gives it up, or ends unserved.
  ghost predicate Takes(w: World, w': World, t: nat) {
    && t < |w.phases| && w.phases[t].Idle? && w.holder.None?
    && w' == w.(phases := w.phases[t := Locked], holder := Some(t), grants := w.grants + [t])
  }

  ghost predicate Works(w: World, w': World, t: nat) {
    && t < |w.phases| && w.holder == Some(t) && w'.holder == w.holder && w'.grants == w.grants
    && |w'.phases| == |w.phases| && Holds(w'.phases[t]) && w'.phases == w.phases[t := w'.phases[t]]
  }

  ghost predicate Leaves(w: World, w': World, t: nat) {
    && t < |w.phases| && w.holder == Some(t) && |w'.phases| == |w.phases|
    && (w'.phases[t].Done? || w'.phases[t].Dead?) && HasStored(w'.phases[t]) == HasStored(w.phases[t])
    && w' == w.(phases := w.phases[t := w'.phases[t]], holder := None)
  }

  ghost predicate Unserved(w: World, w': World, t: nat) {
    && t < |w.phases| && w.phases[t].Idle? && |w'.phases| == |w.phases|
    && (w'.phases[t] == Done(false) || w'.phases[t] == Dead(false))
    && w' == w.(phases := w.phases[t := w'.phases[t]])
  }

  lemma Shapes(codec: Codec, calls: seq<Call>, w: World, a: Action)
    requires |w.phases| == |calls| && Leased(w)
    ensures var w' := Next(codec, calls, w, a);
            || w' == w
            || (a.Write? && w' == w.(file := a.bytes, log := w.log + [Foreign(a.bytes)]))
            || (!a.Write? && (Takes(w, w', a.t) || Works(w, w', a.t) || Leaves(w, w', a.t) || Unserved(w, w', a.t)))
  {
    if !a.Write? && a.t < |calls| {
      assert Holds(w.phases[a.t]) <==> w.holder == Some(a.t);
    }
  }

  lemma TakingKeepsLeased(w: World, w': World, t: nat)
    requires Leased(w) && (Takes(w, w', t) || Works(w, w', t) || Leaves(w, w', t) || Unserved(w, w', t))
    ensures Leased(w')
  {
  }

  lemma NextKeepsLeased(codec: Codec, calls: seq<Call>, w: World, a: Action)
    requires |w.phases| == |calls| && Leased(w)
    ensures Leased(Next(codec, calls, w, a))
  {
    Shapes(codec, calls, w, a);
    var w' := Next(codec, calls, w, a);
    if !a.Write? && w' != w { TakingKeepsLeased(w, w', a.t); }
  }

  // ---------------------------------------------------------------------------
  // The file is the effects replayed
  // ---------------------------------------------------------------------------

  // What a call has in hand stands for the file, or for the baseline it will compare the file with.
  ghost predicate Grounded(codec: Codec, call: Call, file: Option<Bytes>, p: Phase) {
    match p
    case Read(bytes) => call.Transaction? && file.Some?
    case Parsed(config, bytes) =>
      call.Transaction? && config == ConfigOf(codec, Some(bytes)) && (codec.parse(bytes).Some? ==> file.Some?)
    case Ready(config, baseline) => call.Transaction? && config == ConfigOf(codec, baseline)
    case Mutated(config, baseline) => call.Transaction? && Serially(codec, call, baseline) == Some(config)
    case Checked(config) => call.Transaction? && Serially(codec, call, file) == Some(config)
    case _ => true
  }

  ghost predicate HolderGrounded(codec: Codec, calls: seq<Call>, w: World)
    requires |w.phases| == |calls|
  {
    w.holder.Some? ==>
      var t := w.holder.value;
      t < |calls| && Grounded(codec, calls[t], w.file, w.phases[t])
  }

  ghost predicate Replayed(codec: Codec, calls: seq<Call>, w: World, file: Option<Bytes>) {
    w.file == Replay(codec, calls, w.log, file)
  }

  // What suffices for a serial replay: writers without the lease stay out of the moment between a recheck
  // and its replacement, and do not delete the file between a load's read and its test that it is still
  // there. ConfigForeign says exactly which runs are serial, and when a load sets foreign bytes aside.
  ghost predicate Protected(w: World, a: Action) {
    a.Write? && w.holder.Some? && w.holder.value < |w.phases| ==>
      var p := w.phases[w.holder.value];
      !p.Checked? && (a.bytes.None? ==> !p.Read? && !p.Parsed?)
  }

  ghost predicate AllProtected(codec: Codec, calls: seq<Call>, w: World, run: seq<Action>)
    requires |w.phases| == |calls|
    decreases |run|
  {
    run != [] ==> Protected(w, run[0]) && AllProtected(codec, calls, Next(codec, calls, w, run[0]), run[1..])
  }

  lemma ReplayOne(codec: Codec, calls: seq<Call>, log: seq<Effect>, e: Effect, file: Option<Bytes>)
    ensures Replay(codec, calls, log + [e], file) == Apply(codec, calls, e, Replay(codec, calls, log, file))
  {
    assert (log + [e])[..|log|] == log;
  }

  // Under the lease, the file changes only by the effect logged.
  lemma HolderApplies(codec: Codec, calls: seq<Call>, w: World, t: nat, env: Env)
    requires t < |w.phases| == |calls| && w.holder == Some(t) && HolderGrounded(codec, calls, w)
    ensures var w' := Move(codec, calls, w, t, env);
            || (w'.log == w.log && w'.file == w.file)
            || (w'.log == w.log + [Quarantined] && w'.file == None)
            || (w'.log == w.log + [Stored(t)] && w'.file == Apply(codec, calls, Stored(t), w.file))
  {
  }

  lemma HolderReplays(codec: Codec, calls: seq<Call>, w: World, t: nat, env: Env, file: Option<Bytes>)
    requires t < |w.phases| == |calls| && w.holder == Some(t)
    requires HolderGrounded(codec, calls, w) && Replayed(codec, calls, w, file)
    ensures Replayed(codec, calls, Move(codec, calls, w, t, env), file)
  {
    HolderApplies(codec, calls, w, t, env);
    ReplayOne(codec, calls, w.log, Quarantined, file);
    ReplayOne(codec, calls, w.log, Stored(t), file);
  }

  lemma HolderStaysGrounded(codec: Codec, calls: seq<Call>, w: World, t: nat, env: Env)
    requires t < |w.phases| == |calls| && w.holder == Some(t) && Leased(w) && HolderGrounded(codec, calls, w)
    ensures HolderGrounded(codec, calls, Move(codec, calls, w, t, env))
  {
    assert Holds(w.phases[t]);
  }

  lemma NextReplays(codec: Codec, calls: seq<Call>, w: World, a: Action, file: Option<Bytes>)
    requires |w.phases| == |calls| && Leased(w) && Protected(w, a)
    requires HolderGrounded(codec, calls, w) && Replayed(codec, calls, w, file)
    ensures HolderGrounded(codec, calls, Next(codec, calls, w, a))
    ensures Replayed(codec, calls, Next(codec, calls, w, a), file)
  {
    Shapes(codec, calls, w, a);
    if a.Write? {
      ReplayOne(codec, calls, w.log, Foreign(a.bytes), file);
    } else if a.Step? && w.holder == Some(a.t) && a.t < |calls| {
      HolderReplays(codec, calls, w, a.t, a.env, file);
      HolderStaysGrounded(codec, calls, w, a.t, a.env);
    } else if a.t < |calls| {
      assert Holds(w.phases[a.t]) <==> w.holder == Some(a.t);
    }
  }

  // Any number of saves and transactions, with crashes anywhere and protected foreign writes, leave the
  // file equal to the effects replayed one after another: each successful call is applied to the very
  // file the effects before it left.
  lemma {:induction false} FileIsReplayed(codec: Codec, calls: seq<Call>, w: World, run: seq<Action>,
      file: Option<Bytes>)
    requires |w.phases| == |calls| && Leased(w) && AllProtected(codec, calls, w, run)
    requires HolderGrounded(codec, calls, w) && Replayed(codec, calls, w, file)
    ensures Replayed(codec, calls, After(codec, calls, w, run), file)
    decreases |run|
  {
    if run != [] {
      NextKeepsLeased(codec, calls, w, run[0]);
      NextReplays(codec, calls, w, run[0], file);
      FileIsReplayed(codec, calls, Next(codec, calls, w, run[0]), run[1..], file);
    }
  }

  // Read as configurations, the replay is the successful mutations and saves composed in order.
  function Evolve(codec: Codec, calls: seq<Call>, log: seq<Effect>, config: Config): Config {
    if log == [] then config else
      var before := Evolve(codec, calls, log[..|log| - 1], config);
      match log[|log| - 1]
      case Foreign(bytes) => ConfigOf(codec, bytes)
      case Quarantined => codec.initial
      case Stored(t) =>
        if t >= |calls| then before
        else (match calls[t]
              case Save(saved) => saved
              case Transaction(mutate) => if mutate(before).Some? then mutate(before).value else before)
  }

  lemma {:induction false} ConfigsEvolve(codec: Codec, calls: seq<Call>, log: seq<Effect>, file: Option<Bytes>)
    requires RoundTrips(codec)
    ensures ConfigOf(codec, Replay(codec, calls, log, file)) == Evolve(codec, calls, log, ConfigOf(codec, file))
  {
    if log != [] { ConfigsEvolve(codec, calls, log[..|log| - 1], file); }
  }

  // ---------------------------------------------------------------------------
  // Lock order
  // ---------------------------------------------------------------------------

  function Stores(log: seq<Effect>): seq<nat> {
    if log == [] then []
    else if log[|log| - 1].Stored? then Stores(log[..|log| - 1]) + [log[|log| - 1].t]
    else Stores(log[..|log| - 1])
  }

  // The calls that replaced the file, in the order they were granted the lease.
  ghost function Succeeded(grants: seq<nat>, phases: seq<Phase>): seq<nat>
    requires forall i :: 0 <= i < |grants| ==> grants[i] < |phases|
  {
    if grants == [] then []
    else if HasStored(phases[grants[|grants| - 1]])
    then Succeeded(grants[..|grants| - 1], phases) + [grants[|grants| - 1]]
    else Succeeded(grants[..|grants| - 1], phases)
  }

  ghost predicate InLockOrder(w: World)
    requires Leased(w)
  {
    Stores(w.log) == Succeeded(w.grants, w.phases)
  }

  lemma {:induction false} SucceededAlike(grants: seq<nat>, phases: seq<Phase>, phases': seq<Phase>)
    requires forall i :: 0 <= i < |grants| ==> grants[i] < |phases| && grants[i] < |phases'|
    requires forall i :: 0 <= i < |grants| ==> HasStored(phases[grants[i]]) == HasStored(phases'[grants[i]])
    ensures Succeeded(grants, phases) == Succeeded(grants, phases')
  {
    if grants != [] {
      var last := grants[|grants| - 1];
      assert HasStored(phases[last]) == HasStored(phases'[last]);
      SucceededAlike(grants[..|grants| - 1], phases, phases');
    }
  }

  lemma StoresOne(log: seq<Effect>, e: Effect)
    ensures Stores(log + [e]) == if e.Stored? then Stores(log) + [e.t] else Stores(log)
  {
    assert (log + [e])[..|log|] == log;
  }

  // What the holder's step logs.
  lemma HolderLogs(codec: Codec, calls: seq<Call>, w: World, t: nat, env: Env)
    requires t < |w.phases| == |calls| && w.holder == Some(t) && Leased(w)
    ensures var w' := Move(codec, calls, w, t, env);
            || (!HasStored(w.phases[t]) && HasStored(w'.phases[t]) && w'.log == w.log + [Stored(t)])
            || (&& HasStored(w.phases[t]) == HasStored(w'.phases[t])
                && (w'.log == w.log || w'.log == w.log + [Quarantined]))
  {
    assert Holds(w.phases[t]);
  }

  // A step of the holder keeps the order: when it replaces the file it is the last to have been granted
  // the lease.
  lemma HolderKeepsOrder(w: World, w': World, t: nat)
    requires Leased(w) && Leased(w') && w.holder == Some(t) && t < |w.phases| && InLockOrder(w)
    requires |w'.phases| == |w.phases| && w'.grants == w.grants && w'.phases == w.phases[t := w'.phases[t]]
    requires || (!HasStored(w.phases[t]) && HasStored(w'.phases[t]) && w'.log == w.log + [Stored(t)])
             || (&& HasStored(w.phases[t]) == HasStored(w'.phases[t])
                 && (w'.log == w.log || w'.log == w.log + [Quarantined]))
    ensures InLockOrder(w')
  {
    StoresOne(w.log, Stored(t));
    StoresOne(w.log, Quarantined);
    var earlier := w.grants[..|w.grants| - 1];
    assert forall i :: 0 <= i < |earlier| ==> earlier[i] == w.grants[i] && w.grants[i] != t;
    SucceededAlike(earlier, w.phases, w'.phases);
  }

  lemma OthersKeepOrder(w: World, w': World, t: nat)
    requires Leased(w) && Leased(w') && InLockOrder(w) && (Takes(w, w', t) || Unserved(w, w', t))
    ensures InLockOrder(w')
  {
    SucceededAlike(w.grants, w.phases, w'.phases);
    assert Takes(w, w', t) ==> w'.grants[..|w'.grants| - 1] == w.grants;
  }

  lemma NextKeepsOrder(codec: Codec, calls: seq<Call>, w: World, a: Action)
    requires |w.phases| == |calls| && Leased(w) && Leased(Next(codec, calls, w, a)) && InLockOrder(w)
    ensures InLockOrder(Next(codec, calls, w, a))
  {
    var w' := Next(codec, calls, w, a);
    Shapes(codec, calls, w, a);
    if a.Write? {
      StoresOne(w.log, Foreign(a.bytes));
    } else if w' != w {
      if Takes(w, w', a.t) || Unserved(w, w', a.t) {
        OthersKeepOrder(w, w', a.t);
      } else {
        if a.Step? { HolderLogs(codec, calls, w, a.t, a.env); }
        HolderKeepsOrder(w, w', a.t);
      }
    }
  }

  // Whoever holds the lease or has replaced the file was granted the lease.
  ghost predicate Granted(w: World) {
    forall t :: 0 <= t < |w.phases| && (Holds(w.phases[t]) || HasStored(w.phases[t])) ==> t in w.grants
  }

  lemma NextKeepsGranted(codec: Codec, calls: seq<Call>, w: World, a: Action)
    requires |w.phases| == |calls| && Leased(w) && Granted(w)
    ensures Granted(Next(codec, calls, w, a))
  {
    Shapes(codec, calls, w, a);
    var w' := Next(codec, calls, w, a);
    forall t | 0 <= t < |w'.phases| && (Holds(w'.phases[t]) || HasStored(w'.phases[t])) ensures t in w'.grants {
      if t in w.grants { assert w.grants <= w'.grants; }
    }
  }

  lemma {:induction false} SucceededAre(grants: seq<nat>, phases: seq<Phase>)
    requires forall i :: 0 <= i < |grants| ==> grants[i] < |phases|
    requires forall i, j :: 0 <= i < j < |grants| ==> grants[i] != grants[j]
    ensures forall t :: t in Succeeded(grants, phases) <==> t in grants && HasStored(phases[t])
    ensures Distinct(Succeeded(grants, phases))
  {
    if grants != [] {
      var front, last := grants[..|grants| - 1], grants[|grants| - 1];
      SucceededAre(front, phases);
      assert grants == front + [last] && last !in front;
    }
  }

  predicate Distinct(s: seq<nat>) { forall i, j :: 0 <= i < j < |s| ==> s[i] != s[j] }

  // The log holds one replacement of every call that succeeded, or died after replacing, and of no other.
  ghost predicate StoredOnce(w: World) {
    && (forall t: nat :: t in Stores(w.log) <==> t < |w.phases| && HasStored(w.phases[t]))
    && Distinct(Stores(w.log))
  }

  // The replacements in the log are exactly the calls that succeeded, or crashed after replacing, each once
  // and in the order in which they were granted the lease. A call that failed left none.
  lemma {:induction false} StoresInLockOrder(codec: Codec, calls: seq<Call>, w: World, run: seq<Action>)
    requires |w.phases| == |calls| && Leased(w) && Granted(w) && InLockOrder(w)
    ensures Leased(After(codec, calls, w, run)) && InLockOrder(After(codec, calls, w, run))
    ensures StoredOnce(After(codec, calls, w, run))
    decreases |run|
  {
    if run == [] {
      SucceededAre(w.grants, w.phases);
    } else {
      NextKeepsLeased(codec, calls, w, run[0]);
      NextKeepsGranted(codec, calls, w, run[0]);
      NextKeepsOrder(codec, calls, w, run[0]);
      StoresInLockOrder(codec, calls, Next(codec, calls, w, run[0]), run[1..]);
    }
  }

  // From the start of any protected run: the file is the replay of the log, and the log's replacements
  // are exactly the successful calls, each once and in lock order.
  lemma RunsSerially(codec: Codec, calls: seq<Call>, file: Option<Bytes>, run: seq<Action>)
    requires AllProtected(codec, calls, Start(calls, file), run)
    ensures var w := After(codec, calls, Start(calls, file), run);
            && w.file == Replay(codec, calls, w.log, file)
            && Leased(w) && Stores(w.log) == Succeeded(w.grants, w.phases) && StoredOnce(w)
            && (RoundTrips(codec) ==> ConfigOf(codec, w.file) == Evolve(codec, calls, w.log, ConfigOf(codec, file)))
  {
    var start := Start(calls, file);
    FileIsReplayed(codec, calls, start, run, file);
    StoresInLockOrder(codec, calls, start, run);
    if RoundTrips(codec) { ConfigsEvolve(codec, calls, After(codec, calls, start, run).log, file); }
  }
}
