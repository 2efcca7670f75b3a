// Writers that do not take the configuration lease: what a transaction notices of them, and exactly when
// it does not.
module ConfigForeign {
  import opened Prelude
  import opened ConfigTransaction

  // ---------------------------------------------------------------------------
  // A foreign change is noticed
  // ---------------------------------------------------------------------------

  function Rank(p: Phase): nat {
    match p
    case Idle => 0
    case Locked => 1
    case Read(_) => 2
    case Parsed(_, _) => 3
    case Ready(_, _) => 4
    case Mutated(_, _) => 5
    case Checked(_) => 6
    case Written => 7
    case Done(_) => 8
    case Dead(_) => 8
  }

  lemma MoveGoesForward(codec: Codec, calls: seq<Call>, w: World, u: nat, env: Env, t: nat)
    requires t < |w.phases| == |calls| && u < |calls|
    ensures Rank(w.phases[t]) <= Rank(Move(codec, calls, w, u, env).phases[t])
  {
    if u != t {
      assert Move(codec, calls, w, u, env).phases[t] == w.phases[t];
    }
  }

  lemma NextGoesForward(codec: Codec, calls: seq<Call>, w: World, a: Action, t: nat)
    requires t < |w.phases| == |calls|
    ensures Rank(w.phases[t]) <= Rank(Next(codec, calls, w, a).phases[t])
  {
    if a.Step? && a.t < |calls| { MoveGoesForward(codec, calls, w, a.t, a.env, t); }
  }

  lemma {:induction false} PhasesGoForward(codec: Codec, calls: seq<Call>, w: World, run: seq<Action>, t: nat)
    requires t < |w.phases| == |calls|
    ensures Rank(w.phases[t]) <= Rank(After(codec, calls, w, run).phases[t])
    decreases |run|
  {
    if run != [] {
      NextGoesForward(codec, calls, w, run[0], t);
      PhasesGoForward(codec, calls, Next(codec, calls, w, run[0]), run[1..], t);
    }
  }

  // The file as the writers without the lease leave it.
  function LastWrite(run: seq<Action>, file: Option<Bytes>): Option<Bytes> {
    if run == [] then file
    else if run[|run| - 1].Write? then run[|run| - 1].bytes
    else LastWrite(run[..|run| - 1], file)
  }

  function After1(file: Option<Bytes>, a: Action): Option<Bytes> { if a.Write? then a.bytes else file }

  lemma {:induction false} LastWriteFront(run: seq<Action>, file: Option<Bytes>)
    requires run != []
    ensures LastWrite(run, file) == LastWrite(run[1..], After1(file, run[0]))
  {
    if |run| > 1 && !run[|run| - 1].Write? {
      assert run[1..][..|run| - 2] == run[..|run| - 1][1..];
      LastWriteFront(run[..|run| - 1], file);
    }
  }

  predicate Waiting(p: Phase) { p.Ready? || p.Mutated? }

  // While a call waits between load and recheck, only a writer without the lease changes the file.
  lemma OnlyWritersChange(codec: Codec, calls: seq<Call>, w: World, a: Action, t: nat)
    requires t < |w.phases| == |calls| && Leased(w) && Waiting(w.phases[t])
    requires Waiting(Next(codec, calls, w, a).phases[t])
    ensures Next(codec, calls, w, a).file == After1(w.file, a)
    ensures Next(codec, calls, w, a).phases[t].baseline == w.phases[t].baseline
  {
    assert w.holder == Some(t);
    Shapes(codec, calls, w, a);
  }

  lemma {:induction false} FileWhileWaiting(codec: Codec, calls: seq<Call>, w: World, run: seq<Action>, t: nat)
    requires t < |w.phases| == |calls| && Leased(w) && Waiting(w.phases[t])
    requires Waiting(After(codec, calls, w, run).phases[t])
    ensures After(codec, calls, w, run).file == LastWrite(run, w.file)
    ensures After(codec, calls, w, run).phases[t].baseline == w.phases[t].baseline
    decreases |run|
  {
    if run != [] {
      var next := Next(codec, calls, w, run[0]);
      NextGoesForward(codec, calls, w, run[0], t);
      PhasesGoForward(codec, calls, next, run[1..], t);
      OnlyWritersChange(codec, calls, w, run[0], t);
      NextKeepsLeased(codec, calls, w, run[0]);
      LastWriteFront(run, w.file);
      FileWhileWaiting(codec, calls, next, run[1..], t);
    }
  }

  // Whatever happens between a transaction's load and its recheck, the recheck lets it through exactly
  // when the last bytes written without the lease, if any, are the baseline; otherwise it fails and
  // leaves those bytes in place.
  lemma ForeignChangeFails(codec: Codec, calls: seq<Call>, w: World, run: seq<Action>, t: nat, env: Env)
    requires t < |w.phases| == |calls| && Leased(w) && w.phases[t].Ready?
    requires After(codec, calls, w, run).phases[t].Mutated? && !env.fails
    ensures var bytes := LastWrite(run, w.file);
            var checked' := Next(codec, calls, After(codec, calls, w, run), Step(t, env));
            && checked'.file == bytes
            && if bytes == w.phases[t].baseline then checked'.phases[t].Checked? else checked'.phases[t] == Done(false)
  {
    FileWhileWaiting(codec, calls, w, run, t);
  }

  // ---------------------------------------------------------------------------
  // From the read to the recheck
  // ---------------------------------------------------------------------------

  lemma {:induction false} AfterOneMore(codec: Codec, calls: seq<Call>, w: World, run: seq<Action>, a: Action)
    requires |w.phases| == |calls|
    ensures After(codec, calls, w, run + [a]) == Next(codec, calls, After(codec, calls, w, run), a)
    decreases |run|
  {
    if run == [] {
      assert (run + [a])[1..] == [];
    } else {
      assert (run + [a])[1..] == run[1..] + [a];
      AfterOneMore(codec, calls, Next(codec, calls, w, run[0]), run[1..], a);
    }
  }

  lemma AfterLast(codec: Codec, calls: seq<Call>, w: World, run: seq<Action>)
    requires |w.phases| == |calls| && run != []
    ensures After(codec, calls, w, run)
         == Next(codec, calls, After(codec, calls, w, run[..|run| - 1]), run[|run| - 1])
  {
    var front, last := run[..|run| - 1], run[|run| - 1];
    assert run == front + [last];
    AfterOneMore(codec, calls, w, front, last);
  }

  predicate HasWrite(run: seq<Action>) { exists i :: 0 <= i < |run| && run[i].Write? }

  predicate StepOf(a: Action, t: nat) { a.Step? && a.t == t }

  // This step of t finds its read corrupt and renames the file that stands there.
  predicate SetsAside(codec: Codec, w: World, a: Action, t: nat) {
    && StepOf(a, t) && t < |w.phases| && w.phases[t].Read? && codec.parse(w.phases[t].bytes).None?
    && a.env.quarantines && w.file.Some?
  }

  // This step of t tests whether the file it read is still there, and it is not.
  predicate FindsAbsent(w: World, a: Action, t: nat) {
    StepOf(a, t) && t < |w.phases| && w.phases[t].Parsed? && w.file.None?
  }

  // In the run, t set a file aside after a foreign write.
  ghost predicate SetForeignAside(codec: Codec, calls: seq<Call>, w: World, run: seq<Action>, t: nat)
    requires |w.phases| == |calls|
  {
    run != [] &&
    var front := run[..|run| - 1];
    || SetForeignAside(codec, calls, w, front, t)
    || (HasWrite(front) && SetsAside(codec, After(codec, calls, w, front), run[|run| - 1], t))
  }

  // In the run, t found the file absent when it tested.
  ghost predicate FoundAbsent(codec: Codec, calls: seq<Call>, w: World, run: seq<Action>, t: nat)
    requires |w.phases| == |calls|
  {
    run != [] &&
    var front := run[..|run| - 1];
    FoundAbsent(codec, calls, w, front, t) || FindsAbsent(After(codec, calls, w, front), run[|run| - 1], t)
  }

  // At every moment of the run after the first foreign write, the file is what the last one left: only a
  // foreign write ever displaced a foreign write.
  ghost predicate NoneDisplaced(codec: Codec, calls: seq<Call>, w: World, run: seq<Action>)
    requires |w.phases| == |calls|
  {
    && (run != [] ==> NoneDisplaced(codec, calls, w, run[..|run| - 1]))
    && (HasWrite(run) ==> After(codec, calls, w, run).file == LastWrite(run, w.file))
  }

  // What t has in hand after reading `bytes`, and its baseline.
  ghost predicate Follows(codec: Codec, call: Call, bytes: Bytes, p: Phase, absent: bool) {
    var read := Some(bytes);
    var baseline := if absent then None else read;
    match p
    case Read(b) => b == bytes && !absent
    case Parsed(config, b) => b == bytes && config == ConfigOf(codec, read) && !absent
    case Ready(config, base) => config == ConfigOf(codec, read) && base == baseline
    case Mutated(config, base) => Serially(codec, call, read) == Some(config) && base == baseline
    case Checked(config) => Serially(codec, call, read) == Some(config)
    case _ => false
  }

  predicate Rechecking(p: Phase) { 2 <= Rank(p) <= 5 }

  // Until t has passed its recheck only a foreign write and its own rename change the file.
  lemma FileBeforeRecheck(codec: Codec, calls: seq<Call>, w: World, a: Action, t: nat)
    requires t < |w.phases| == |calls| && Leased(w) && Rechecking(w.phases[t])
    requires Rank(Next(codec, calls, w, a).phases[t]) <= 6
    ensures Next(codec, calls, w, a).file == if SetsAside(codec, w, a, t) then None else After1(w.file, a)
  {
    assert w.holder == Some(t);
    Shapes(codec, calls, w, a);
  }

  lemma FollowsOn(codec: Codec, calls: seq<Call>, w: World, a: Action, t: nat, bytes: Bytes, absent: bool)
    requires t < |w.phases| == |calls| && Leased(w) && Rechecking(w.phases[t]) && calls[t].Transaction?
    requires Rank(Next(codec, calls, w, a).phases[t]) <= 6
    requires Follows(codec, calls[t], bytes, w.phases[t], absent)
    ensures Follows(codec, calls[t], bytes, Next(codec, calls, w, a).phases[t], absent || FindsAbsent(w, a, t))
  {
    assert w.holder == Some(t);
    Shapes(codec, calls, w, a);
  }

  // A call that has not come past its recheck at the end of a run had not before.
  lemma BeforeRecheck(codec: Codec, calls: seq<Call>, w: World, run: seq<Action>, t: nat)
    requires t < |w.phases| == |calls| && Rechecking(w.phases[t]) && run != []
    ensures Rank(w.phases[t]) <= Rank(After(codec, calls, w, run[..|run| - 1]).phases[t])
         <= Rank(After(codec, calls, w, run).phases[t])
  {
    AfterLast(codec, calls, w, run);
    PhasesGoForward(codec, calls, w, run[..|run| - 1], t);
    NextGoesForward(codec, calls, After(codec, calls, w, run[..|run| - 1]), run[|run| - 1], t);
  }

  lemma {:induction false} LeasedAfter(codec: Codec, calls: seq<Call>, w: World, run: seq<Action>)
    requires |w.phases| == |calls| && Leased(w)
    ensures Leased(After(codec, calls, w, run))
    decreases |run|
  {
    if run != [] {
      NextKeepsLeased(codec, calls, w, run[0]);
      LeasedAfter(codec, calls, Next(codec, calls, w, run[0]), run[1..]);
    }
  }

  lemma {:induction false} FollowsAlong(codec: Codec, calls: seq<Call>, w: World, run: seq<Action>, t: nat,
      bytes: Bytes)
    requires t < |w.phases| == |calls| && Leased(w) && w.phases[t] == Read(bytes) && calls[t].Transaction?
    requires Rank(After(codec, calls, w, run).phases[t]) <= 5
    ensures Follows(codec, calls[t], bytes, After(codec, calls, w, run).phases[t], FoundAbsent(codec, calls, w, run, t))
    decreases |run|
  {
    if run != [] {
      var front := run[..|run| - 1];
      BeforeRecheck(codec, calls, w, run, t);
      FollowsAlong(codec, calls, w, front, t, bytes);
      LeasedAfter(codec, calls, w, front);
      AfterLast(codec, calls, w, run);
      var absent := FoundAbsent(codec, calls, w, front, t);
      FollowsOn(codec, calls, After(codec, calls, w, front), run[|run| - 1], t, bytes, absent);
    }
  }

  lemma {:induction false} DisplacedExactly(codec: Codec, calls: seq<Call>, w: World, run: seq<Action>, t: nat)
    requires t < |w.phases| == |calls| && Leased(w) && w.phases[t].Read?
    requires run == [] || Rank(After(codec, calls, w, run[..|run| - 1]).phases[t]) <= 5
    requires Rank(After(codec, calls, w, run).phases[t]) <= 6
    ensures NoneDisplaced(codec, calls, w, run) <==> !SetForeignAside(codec, calls, w, run, t)
    decreases |run|
  {
    if run != [] {
      var front, a := run[..|run| - 1], run[|run| - 1];
      var before := After(codec, calls, w, front);
      BeforeRecheck(codec, calls, w, run, t);
      if front != [] { BeforeRecheck(codec, calls, w, front, t); }
      DisplacedExactly(codec, calls, w, front, t);
      LeasedAfter(codec, calls, w, front);
      AfterLast(codec, calls, w, run);
      FileBeforeRecheck(codec, calls, before, a, t);
      assert run == front + [a];
      assert HasWrite(run) <==> HasWrite(front) || a.Write?;
    }
  }

  // The same, read off the log: since entry n a quarantine came after a foreign write.
  predicate QuarantinedAfterForeign(log: seq<Effect>, n: nat) {
    exists i, j :: n <= i < j < |log| && log[i].Foreign? && log[j].Quarantined?
  }

  predicate ForeignSince(log: seq<Effect>, n: nat) { exists i :: n <= i < |log| && log[i].Foreign? }

  lemma LogBeforeRecheck(codec: Codec, calls: seq<Call>, w: World, a: Action, t: nat)
    requires t < |w.phases| == |calls| && Leased(w) && Rechecking(w.phases[t])
    requires Rank(Next(codec, calls, w, a).phases[t]) <= 6
    ensures Next(codec, calls, w, a).log ==
              if a.Write? then w.log + [Foreign(a.bytes)]
              else if SetsAside(codec, w, a, t) then w.log + [Quarantined] else w.log
  {
    assert w.holder == Some(t);
    Shapes(codec, calls, w, a);
  }

  lemma LogGrows(log: seq<Effect>, n: nat, e: Effect)
    requires n <= |log|
    ensures ForeignSince(log + [e], n) <==> ForeignSince(log, n) || e.Foreign?
    ensures QuarantinedAfterForeign(log + [e], n)
       <==> QuarantinedAfterForeign(log, n) || (ForeignSince(log, n) && e.Quarantined?)
  {
    var more := log + [e];
    assert more[|log|] == e;
    if i :| n <= i < |log| && log[i].Foreign? { assert more[i].Foreign?; }
    if i, j :| n <= i < j < |log| && log[i].Foreign? && log[j].Quarantined? {
      assert more[i].Foreign? && more[j].Quarantined?;
    }
    if i, j :| n <= i < j < |more| && more[i].Foreign? && more[j].Quarantined? { assert log[i].Foreign?; }
    if i :| n <= i < |more| && more[i].Foreign? { assert i == |log| || log[i].Foreign?; }
  }

  lemma {:induction false} AsideIsLogged(codec: Codec, calls: seq<Call>, w: World, run: seq<Action>, t: nat)
    requires t < |w.phases| == |calls| && Leased(w) && w.phases[t].Read?
    requires Rank(After(codec, calls, w, run).phases[t]) <= 5
    ensures |w.log| <= |After(codec, calls, w, run).log|
    ensures HasWrite(run) <==> ForeignSince(After(codec, calls, w, run).log, |w.log|)
    ensures SetForeignAside(codec, calls, w, run, t)
       <==> QuarantinedAfterForeign(After(codec, calls, w, run).log, |w.log|)
    decreases |run|
  {
    if run != [] {
      var front, a := run[..|run| - 1], run[|run| - 1];
      var before := After(codec, calls, w, front);
      BeforeRecheck(codec, calls, w, run, t);
      AsideIsLogged(codec, calls, w, front, t);
      LeasedAfter(codec, calls, w, front);
      AfterLast(codec, calls, w, run);
      LogBeforeRecheck(codec, calls, before, a, t);
      LogGrows(before.log, |w.log|, if a.Write? then Foreign(a.bytes) else Quarantined);
      assert run == front + [a];
      assert HasWrite(run) <==> HasWrite(front) || a.Write?;
    }
  }

  // The file is the one that was read, or a corrupt one that is gone.
  predicate StillTheFile(codec: Codec, bytes: Bytes, file: Option<Bytes>) {
    file == Some(bytes) || (file.None? && codec.parse(bytes).None?)
  }

  // From the moment a transaction holds the bytes it read to the moment it passes its recheck, whatever
  // else happens: it always passes with the mutation of what it read. No foreign write was displaced, and
  // what it read is still the file, exactly when it set nothing aside after a foreign write and did not
  // find the file absent after reading a valid one. What it passes with is the mutation of the file as it
  // now stands unless it found the file absent and makes something else of an absent file.
  lemma HonestExactly(codec: Codec, calls: seq<Call>, w: World, run: seq<Action>, t: nat, bytes: Bytes, env: Env)
    requires t < |w.phases| == |calls| && Leased(w) && w.phases[t] == Read(bytes) && calls[t].Transaction?
    requires After(codec, calls, w, run).phases[t].Mutated?
    requires Next(codec, calls, After(codec, calls, w, run), Step(t, env)).phases[t].Checked?
    ensures var passed := Next(codec, calls, After(codec, calls, w, run), Step(t, env));
            var aside := QuarantinedAfterForeign(passed.log, |w.log|);
            var absent := FoundAbsent(codec, calls, w, run, t);
            && Serially(codec, calls[t], Some(bytes)) == Some(passed.phases[t].config)
            && (NoneDisplaced(codec, calls, w, run) <==> !aside)
            && (StillTheFile(codec, bytes, passed.file) <==> !(absent && codec.parse(bytes).Some?))
            && (ConfigOf(codec, passed.file) == ConfigOf(codec, Some(bytes))
                <==> !(absent && ConfigOf(codec, Some(bytes)) != codec.initial))
            && (Serially(codec, calls[t], passed.file) == Some(passed.phases[t].config)
                <==> !(absent && Serially(codec, calls[t], None) != Serially(codec, calls[t], Some(bytes))))
  {
    PhasesGoForward(codec, calls, w, run, t);
    if run != [] { BeforeRecheck(codec, calls, w, run, t); }
    FollowsAlong(codec, calls, w, run, t, bytes);
    DisplacedExactly(codec, calls, w, run, t);
    AsideIsLogged(codec, calls, w, run, t);
  }

  // The recheck after a whole load: it fails, and leaves the file alone, exactly when the file is not what
  // the load took for its baseline. Unless something was set aside after a foreign write, the file is then
  // what the last foreign write left.
  lemma RecheckSinceRead(codec: Codec, calls: seq<Call>, w: World, run: seq<Action>, t: nat, bytes: Bytes, env: Env)
    requires t < |w.phases| == |calls| && Leased(w) && w.phases[t] == Read(bytes) && calls[t].Transaction?
    requires After(codec, calls, w, run).phases[t].Mutated? && !env.fails
    ensures var before := After(codec, calls, w, run);
            var after := Next(codec, calls, before, Step(t, env));
            var baseline := if FoundAbsent(codec, calls, w, run, t) then None else Some(bytes);
            && after.file == before.file
            && (if before.file == baseline then after.phases[t].Checked? else after.phases[t] == Done(false))
            && (HasWrite(run) && !QuarantinedAfterForeign(before.log, |w.log|) ==>
                  before.file == LastWrite(run, w.file))
  {
    if run != [] { BeforeRecheck(codec, calls, w, run, t); }
    FollowsAlong(codec, calls, w, run, t, bytes);
    DisplacedExactly(codec, calls, w, run, t);
    AsideIsLogged(codec, calls, w, run, t);
  }

  // ---------------------------------------------------------------------------
  // From the recheck to the replacement
  // ---------------------------------------------------------------------------

  lemma {:induction false} FileWhileChecked(codec: Codec, calls: seq<Call>, w: World, run: seq<Action>, t: nat)
    requires t < |w.phases| == |calls| && Leased(w) && w.phases[t].Checked?
    requires After(codec, calls, w, run).phases[t].Checked?
    ensures After(codec, calls, w, run).file == LastWrite(run, w.file)
    ensures After(codec, calls, w, run).phases[t] == w.phases[t]
    decreases |run|
  {
    if run != [] {
      var next := Next(codec, calls, w, run[0]);
      NextGoesForward(codec, calls, w, run[0], t);
      PhasesGoForward(codec, calls, next, run[1..], t);
      NextKeepsLeased(codec, calls, w, run[0]);
      CheckedStands(codec, calls, w, run[0], t);
      LastWriteFront(run, w.file);
      FileWhileChecked(codec, calls, next, run[1..], t);
    }
  }

  lemma CheckedStands(codec: Codec, calls: seq<Call>, w: World, a: Action, t: nat)
    requires t < |w.phases| == |calls| && Leased(w) && w.phases[t].Checked?
    requires Rank(Next(codec, calls, w, a).phases[t]) <= 6
    ensures Next(codec, calls, w, a).file == After1(w.file, a)
    ensures Next(codec, calls, w, a).phases[t] == w.phases[t]
  {
    assert w.holder == Some(t);
    Shapes(codec, calls, w, a);
  }

  // After the recheck any bytes at all are overwritten. What is left is what the transaction would have
  // made of them exactly when it makes the same of them as of the file it rechecked or, where its mutation
  // refuses them, when they are already what it writes.
  lemma OverwrittenAfterRecheck(codec: Codec, calls: seq<Call>, w: World, run: seq<Action>, t: nat, env: Env)
    requires t < |w.phases| == |calls| && Leased(w) && HolderGrounded(codec, calls, w) && w.phases[t].Checked?
    requires After(codec, calls, w, run).phases[t].Checked? && !env.fails
    ensures var bytes := LastWrite(run, w.file);
            var replaced := Next(codec, calls, After(codec, calls, w, run), Step(t, env));
            var rechecked, met := Serially(codec, calls[t], w.file), Serially(codec, calls[t], bytes);
            && After(codec, calls, w, run).file == bytes && rechecked.Some?
            && replaced.phases[t] == Written && replaced.file == Some(codec.render(rechecked.value))
            && (RoundTrips(codec) ==>
                (replaced.file == Apply(codec, calls, Stored(t), bytes)
                 <==> if met.Some? then met == rechecked else bytes == Some(codec.render(rechecked.value))))
  {
    assert w.holder == Some(t);
    FileWhileChecked(codec, calls, w, run, t);
    if RoundTrips(codec) && Serially(codec, calls[t], LastWrite(run, w.file)).Some? {
      var rechecked, met := Serially(codec, calls[t], w.file), Serially(codec, calls[t], LastWrite(run, w.file));
      RenderedApart(codec, rechecked.value, met.value);
    }
  }

  lemma RenderedApart(codec: Codec, a: Config, b: Config)
    requires RoundTrips(codec)
    ensures codec.render(a) == codec.render(b) <==> a == b
  {
    assert codec.parse(codec.render(a)) == Some(a) && codec.parse(codec.render(b)) == Some(b);
  }

  // ---------------------------------------------------------------------------
  // Exactly the serial runs
  // ---------------------------------------------------------------------------

  // Bytes that are UTF-8, and not a configuration of another version.
  predicate Legible(codec: Codec, bytes: Bytes) {
    codec.utf8(bytes) && (codec.parse(bytes).Some? ==> codec.current(codec.parse(bytes).value))
  }

  // What t has in hand comes from `read`, the file when it read it.
  ghost predicate Carries(codec: Codec, call: Call, read: Option<Bytes>, p: Phase) {
    && (read.Some? ==> codec.utf8(read.value) && (p.Read? || Legible(codec, read.value)))
    && match p
       case Read(bytes) => read == Some(bytes)
       case Parsed(config, bytes) => read == Some(bytes) && config == ConfigOf(codec, read)
       case Ready(config, _) => config == ConfigOf(codec, read)
       case Mutated(config, _) => Serially(codec, call, read) == Some(config)
       case Checked(config) => Serially(codec, call, read) == Some(config)
       case _ => false
  }

  lemma ReadIsCarried(codec: Codec, calls: seq<Call>, w: World, t: nat, env: Env)
    requires t < |w.phases| == |calls| && w.phases[t].Locked? && calls[t].Transaction?
    requires Holds(Next(codec, calls, w, Step(t, env)).phases[t])
    ensures Carries(codec, calls[t], w.file, Next(codec, calls, w, Step(t, env)).phases[t])
  {
  }

  lemma CarriesOn(codec: Codec, calls: seq<Call>, w: World, a: Action, t: nat, read: Option<Bytes>)
    requires t < |w.phases| == |calls| && Leased(w) && calls[t].Transaction?
    requires Carries(codec, calls[t], read, w.phases[t]) && Rank(Next(codec, calls, w, a).phases[t]) <= 6
    ensures Carries(codec, calls[t], read, Next(codec, calls, w, a).phases[t])
  {
    assert w.holder == Some(t);
    Shapes(codec, calls, w, a);
  }

  // Until it replaces the file a transaction carries what it read, whatever happens meanwhile.
  lemma {:induction false} CarriesAlong(
    codec: Codec, calls: seq<Call>, w: World, run: seq<Action>, t: nat, read: Option<Bytes>)
    requires t < |w.phases| == |calls| && Leased(w) && calls[t].Transaction?
    requires Carries(codec, calls[t], read, w.phases[t]) && Rank(After(codec, calls, w, run).phases[t]) <= 6
    ensures Carries(codec, calls[t], read, After(codec, calls, w, run).phases[t])
    decreases |run|
  {
    if run != [] {
      var next := Next(codec, calls, w, run[0]);
      PhasesGoForward(codec, calls, next, run[1..], t);
      CarriesOn(codec, calls, w, run[0], t, read);
      NextKeepsLeased(codec, calls, w, run[0]);
      CarriesAlong(codec, calls, next, run[1..], t, read);
    }
  }

  // The call makes the same of the file as of the one it read or, where it refuses the file, the file
  // already is what it makes.
  predicate MakesTheSame(codec: Codec, call: Call, read: Option<Bytes>, file: Option<Bytes>) {
    var made, met := Serially(codec, call, read), Serially(codec, call, file);
    made.Some? && if met.Some? then met == made else file == Some(codec.render(made.value))
  }

  lemma ReplacedExactly(codec: Codec, calls: seq<Call>, t: nat, read: Option<Bytes>, file: Option<Bytes>)
    requires RoundTrips(codec) && t < |calls| && Serially(codec, calls[t], read).Some?
    ensures Some(codec.render(Serially(codec, calls[t], read).value)) == Apply(codec, calls, Stored(t), file)
       <==> MakesTheSame(codec, calls[t], read, file)
  {
    var made, met := Serially(codec, calls[t], read), Serially(codec, calls[t], file);
    if met.Some? { RenderedApart(codec, made.value, met.value); }
  }

  // From the read to the replacement, through any run, foreign writes and undone deletions included: what
  // the replacement leaves is its call applied to the file it replaces exactly when the call makes the same
  // of that file as of the one it read.
  lemma SerialExactly(
    codec: Codec, calls: seq<Call>, w: World, run: seq<Action>, t: nat, read: Option<Bytes>, env: Env)
    requires t < |w.phases| == |calls| && Leased(w) && calls[t].Transaction? && RoundTrips(codec)
    requires Carries(codec, calls[t], read, w.phases[t])
    requires After(codec, calls, w, run).phases[t].Checked? && !env.fails
    ensures var before := After(codec, calls, w, run);
            var replaced := Next(codec, calls, before, Step(t, env));
            && replaced.phases[t] == Written && replaced.log == before.log + [Stored(t)]
            && (read.Some? ==> Legible(codec, read.value))
            && (replaced.file == Apply(codec, calls, Stored(t), before.file)
                <==> MakesTheSame(codec, calls[t], read, before.file))
  {
    CarriesAlong(codec, calls, w, run, t, read);
    ReplacedExactly(codec, calls, t, read, After(codec, calls, w, run).file);
  }

  // A history: for every call what it read, where it carries anything.
  ghost predicate Reads(codec: Codec, calls: seq<Call>, w: World, seen: map<nat, Option<Bytes>>)
    requires |w.phases| == |calls|
  {
    forall t :: 0 <= t < |calls| && calls[t].Transaction? && 2 <= Rank(w.phases[t]) <= 6 ==>
      t in seen && Carries(codec, calls[t], seen[t], w.phases[t])
  }

  // What has been read after one more step.
  function ReadsAfter(calls: seq<Call>, w: World, a: Action, seen: map<nat, Option<Bytes>>): map<nat, Option<Bytes>>
    requires |w.phases| == |calls|
  {
    if a.Step? && a.t < |calls| && w.phases[a.t].Locked? then seen[a.t := w.file] else seen
  }

  // This step is not a replacement by a transaction that makes something else of the file than of the one
  // it read.
  ghost predicate StepsSerially(
    codec: Codec, calls: seq<Call>, w: World, a: Action, seen: map<nat, Option<Bytes>>)
    requires |w.phases| == |calls|
  {
    a.Step? && a.t < |calls| && w.phases[a.t].Checked? && !a.env.fails ==>
      a.t in seen && MakesTheSame(codec, calls[a.t], seen[a.t], w.file)
  }

  ghost predicate AllSerial(
    codec: Codec, calls: seq<Call>, w: World, run: seq<Action>, seen: map<nat, Option<Bytes>>)
    requires |w.phases| == |calls|
    decreases |run|
  {
    run != [] ==>
      && StepsSerially(codec, calls, w, run[0], seen)
      && AllSerial(codec, calls, Next(codec, calls, w, run[0]), run[1..], ReadsAfter(calls, w, run[0], seen))
  }

  // The file is the replay of the log at every moment of the run.
  ghost predicate AlwaysReplayed(codec: Codec, calls: seq<Call>, w: World, run: seq<Action>, file: Option<Bytes>)
    requires |w.phases| == |calls|
    decreases |run|
  {
    && Replayed(codec, calls, w, file)
    && (run != [] ==> AlwaysReplayed(codec, calls, Next(codec, calls, w, run[0]), run[1..], file))
  }

  // Only transactions come to carry something.
  ghost predicate OnlyTransactions(calls: seq<Call>, w: World)
    requires |w.phases| == |calls|
  {
    forall t :: 0 <= t < |calls| && 2 <= Rank(w.phases[t]) <= 6 ==> calls[t].Transaction?
  }

  lemma ReadsKept(codec: Codec, calls: seq<Call>, w: World, a: Action, seen: map<nat, Option<Bytes>>)
    requires |w.phases| == |calls| && Leased(w) && Reads(codec, calls, w, seen) && OnlyTransactions(calls, w)
    ensures Reads(codec, calls, Next(codec, calls, w, a), ReadsAfter(calls, w, a, seen))
    ensures OnlyTransactions(calls, Next(codec, calls, w, a))
  {
    forall t | 0 <= t < |calls| && 2 <= Rank(Next(codec, calls, w, a).phases[t]) <= 6
      ensures calls[t].Transaction?
      ensures var seen' := ReadsAfter(calls, w, a, seen);
              t in seen' && Carries(codec, calls[t], seen'[t], Next(codec, calls, w, a).phases[t])
    {
      ReadKept(codec, calls, w, a, seen, t);
    }
  }

  lemma ReadKept(codec: Codec, calls: seq<Call>, w: World, a: Action, seen: map<nat, Option<Bytes>>, t: nat)
    requires |w.phases| == |calls| && Leased(w) && Reads(codec, calls, w, seen) && OnlyTransactions(calls, w)
    requires t < |calls| && 2 <= Rank(Next(codec, calls, w, a).phases[t]) <= 6
    ensures calls[t].Transaction?
    ensures var seen' := ReadsAfter(calls, w, a, seen);
            t in seen' && Carries(codec, calls[t], seen'[t], Next(codec, calls, w, a).phases[t])
  {
    NextGoesForward(codec, calls, w, a, t);
    if 2 <= Rank(w.phases[t]) {
      CarriesOn(codec, calls, w, a, t, seen[t]);
    } else {
      Shapes(codec, calls, w, a);
      assert StepOf(a, t) && w.phases[t].Locked?;
      ReadIsCarried(codec, calls, w, t, a.env);
    }
  }

  // One step from a replayed file leaves a replayed file exactly when it steps serially.
  lemma StepReplaysExactly(
    codec: Codec, calls: seq<Call>, w: World, a: Action, seen: map<nat, Option<Bytes>>, file: Option<Bytes>)
    requires |w.phases| == |calls| && Leased(w) && Reads(codec, calls, w, seen) && OnlyTransactions(calls, w)
    requires RoundTrips(codec) && Replayed(codec, calls, w, file)
    ensures Replayed(codec, calls, Next(codec, calls, w, a), file) <==> StepsSerially(codec, calls, w, a, seen)
  {
    if a.Write? {
      ReplayOne(codec, calls, w.log, Foreign(a.bytes), file);
    } else if a.Step? && a.t < |calls| {
      if w.phases[a.t].Checked? {
        ReplacementReplays(codec, calls, w, a.t, a.env, seen, file);
      } else {
        StaysReplayed(codec, calls, w, a.t, a.env, file);
      }
    }
  }

  lemma ReplacementReplays(
    codec: Codec, calls: seq<Call>, w: World, t: nat, env: Env, seen: map<nat, Option<Bytes>>, file: Option<Bytes>)
    requires t < |w.phases| == |calls| && w.phases[t].Checked? && Reads(codec, calls, w, seen)
    requires OnlyTransactions(calls, w) && RoundTrips(codec) && Replayed(codec, calls, w, file)
    ensures Replayed(codec, calls, Move(codec, calls, w, t, env), file) <==>
      StepsSerially(codec, calls, w, Step(t, env), seen)
  {
    ReplayOne(codec, calls, w.log, Stored(t), file);
    ReplacedExactly(codec, calls, t, seen[t], w.file);
  }

  lemma StaysReplayed(codec: Codec, calls: seq<Call>, w: World, t: nat, env: Env, file: Option<Bytes>)
    requires t < |w.phases| == |calls| && !w.phases[t].Checked? && Replayed(codec, calls, w, file)
    ensures Replayed(codec, calls, Move(codec, calls, w, t, env), file)
  {
    ReplayOne(codec, calls, w.log, Stored(t), file);
    ReplayOne(codec, calls, w.log, Quarantined, file);
    OtherStepsReplay(codec, calls, w, t, env);
  }

  lemma OtherStepsReplay(codec: Codec, calls: seq<Call>, w: World, t: nat, env: Env)
    requires t < |w.phases| == |calls| && !w.phases[t].Checked?
    ensures var w' := Move(codec, calls, w, t, env);
            || (w'.log == w.log && w'.file == w.file)
            || (w'.log == w.log + [Quarantined] && w'.file == None)
            || (w'.log == w.log + [Stored(t)] && w'.file == Apply(codec, calls, Stored(t), w.file))
  {
  }

  // Over any run at all the file is the replay of the log at every moment exactly when every replacement
  // makes the same of the file it replaces as of the one it read.
  lemma {:induction false} SerialRunsExactly(
    codec: Codec, calls: seq<Call>, w: World, run: seq<Action>, seen: map<nat, Option<Bytes>>, file: Option<Bytes>)
    requires |w.phases| == |calls| && Leased(w) && Reads(codec, calls, w, seen) && OnlyTransactions(calls, w)
    requires RoundTrips(codec) && Replayed(codec, calls, w, file)
    ensures AlwaysReplayed(codec, calls, w, run, file) <==> AllSerial(codec, calls, w, run, seen)
    decreases |run|
  {
    if run != [] {
      var next := Next(codec, calls, w, run[0]);
      StepReplaysExactly(codec, calls, w, run[0], seen, file);
      NextKeepsLeased(codec, calls, w, run[0]);
      ReadsKept(codec, calls, w, run[0], seen);
      if Replayed(codec, calls, next, file) {
        SerialRunsExactly(codec, calls, next, run[1..], ReadsAfter(calls, w, run[0], seen), file);
      } else {
        assert !AlwaysReplayed(codec, calls, next, run[1..], file);
      }
    }
  }

  // In particular from the start, when nothing has been read.
  lemma RunsSeriallyExactly(codec: Codec, calls: seq<Call>, file: Option<Bytes>, run: seq<Action>)
    requires RoundTrips(codec)
    ensures AlwaysReplayed(codec, calls, Start(calls, file), run, file)
       <==> AllSerial(codec, calls, Start(calls, file), run, map[])
  {
    SerialRunsExactly(codec, calls, Start(calls, file), run, map[], file);
  }

  // ---------------------------------------------------------------------------
  // Runs in which a foreign write is lost
  // ---------------------------------------------------------------------------

  lemma AfterCons(codec: Codec, calls: seq<Call>, w: World, a: Action, rest: seq<Action>)
    requires |w.phases| == |calls|
    ensures After(codec, calls, w, [a] + rest) == After(codec, calls, Next(codec, calls, w, a), rest)
    ensures AllProtected(codec, calls, w, [a] + rest)
       <==> Protected(w, a) && AllProtected(codec, calls, Next(codec, calls, w, a), rest)
  {
    assert ([a] + rest)[1..] == rest;
  }

  // A single call, its load behind it and its baseline the file, goes through.
  lemma Finishes(codec: Codec, mutate: Mutation, file: Option<Bytes>, log: seq<Effect>, config: Config, env: Env)
    requires mutate(config).Some? && !env.fails
    ensures var calls, step := [Transaction(mutate)], Step(0, env);
            var ready := World(file, Some(0), [Ready(config, file)], log, [0]);
            var bytes := codec.render(mutate(config).value);
            && After(codec, calls, ready, [step, step, step, step])
               == World(Some(bytes), None, [Done(true)], log + [Stored(0)], [0])
            && AllProtected(codec, calls, ready, [step, step, step, step])
  {
    var calls, step := [Transaction(mutate)], Step(0, env);
    var mutated := mutate(config).value;
    var w0 := World(file, Some(0), [Ready(config, file)], log, [0]);
    var w1 := World(file, Some(0), [Mutated(mutated, file)], log, [0]);
    var w2 := World(file, Some(0), [Checked(mutated)], log, [0]);
    var w3 := World(Some(codec.render(mutated)), Some(0), [Written], log + [Stored(0)], [0]);
    assert Next(codec, calls, w0, step) == w1;
    assert Next(codec, calls, w1, step) == w2;
    assert Next(codec, calls, w2, step) == w3;
    AfterCons(codec, calls, w0, step, [step, step, step]);
    AfterCons(codec, calls, w1, step, [step, step]);
    AfterCons(codec, calls, w2, step, [step]);
    AfterCons(codec, calls, w3, step, []);
  }

  // A single call reads `bytes`, a foreign write comes, and two more steps end the load.
  lemma Loads(codec: Codec, mutate: Mutation, bytes: Bytes, written: Option<Bytes>, env: Env, parsed: World,
      ready: World)
    requires codec.utf8(bytes) && !env.fails
    requires var calls, step := [Transaction(mutate)], Step(0, env);
             && |parsed.phases| == |ready.phases| == 1
             && Next(codec, calls, World(written, Some(0), [Read(bytes)], [Foreign(written)], [0]), step) == parsed
             && Next(codec, calls, parsed, step) == ready
    ensures var calls, step := [Transaction(mutate)], Step(0, env);
            var start, rest := Start(calls, Some(bytes)), [step, step, step, step];
            var run := [step] + ([step] + ([Write(written)] + ([step] + ([step] + rest))));
            && After(codec, calls, start, run) == After(codec, calls, ready, rest)
            && (AllProtected(codec, calls, start, run) <==> written.Some? && AllProtected(codec, calls, ready, rest))
  {
    var calls, step := [Transaction(mutate)], Step(0, env);
    var rest := [step, step, step, step];
    var start := Start(calls, Some(bytes));
    var locked := World(Some(bytes), Some(0), [Locked], [], [0]);
    var read := World(Some(bytes), Some(0), [Read(bytes)], [], [0]);
    var met := World(written, Some(0), [Read(bytes)], [Foreign(written)], [0]);
    assert Next(codec, calls, start, step) == locked;
    assert Next(codec, calls, locked, step) == read;
    assert Next(codec, calls, read, Write(written)) == met;
    AfterCons(codec, calls, start, step, [step] + ([Write(written)] + ([step] + ([step] + rest))));
    AfterCons(codec, calls, locked, step, [Write(written)] + ([step] + ([step] + rest)));
    AfterCons(codec, calls, read, Write(written), [step] + ([step] + rest));
    AfterCons(codec, calls, met, step, [step] + rest);
    AfterCons(codec, calls, parsed, step, rest);
  }

  // The quarantine race: a corrupt file is repaired between a transaction's read and its rename. The
  // repaired file is set aside, the defaults are mutated in its place, and the call reports success, in a
  // run that is protected and serial.
  lemma RepairSetAside(codec: Codec, mutate: Mutation, bad: Bytes, good: Bytes)
    requires codec.utf8(bad) && codec.parse(bad).None? && codec.parse(good).Some? && mutate(codec.initial).Some?
    ensures var calls, start := [Transaction(mutate)], Start([Transaction(mutate)], Some(bad));
            var step := Step(0, Env(false, true));
            var run := [step, step, Write(Some(good)), step, step, step, step, step, step];
            && AllProtected(codec, calls, start, run)
            && After(codec, calls, start, run)
               == World(Some(codec.render(mutate(codec.initial).value)), None, [Done(true)],
                        [Foreign(Some(good)), Quarantined, Stored(0)], [0])
  {
    var calls, env := [Transaction(mutate)], Env(false, true);
    var step := Step(0, env);
    var log := [Foreign(Some(good)), Quarantined];
    var parsed := World(None, Some(0), [Parsed(codec.initial, bad)], log, [0]);
    var ready := World(None, Some(0), [Ready(codec.initial, None)], log, [0]);
    assert Next(codec, calls, World(Some(good), Some(0), [Read(bad)], [Foreign(Some(good))], [0]), step) == parsed;
    assert Next(codec, calls, parsed, step) == ready;
    Loads(codec, mutate, bad, Some(good), env, parsed, ready);
    Finishes(codec, mutate, None, log, codec.initial, env);
    assert [step] + ([step] + ([Write(Some(good))] + ([step] + ([step] + [step, step, step, step]))))
        == [step, step, Write(Some(good)), step, step, step, step, step, step];
    assert log + [Stored(0)] == [Foreign(Some(good)), Quarantined, Stored(0)];
  }

  // A valid file is deleted between a transaction's read and its test that the file is there. The deletion
  // is undone: the configuration that was read is mutated and saved, and the call reports success.
  lemma DeletionUndone(codec: Codec, mutate: Mutation, good: Bytes, quarantines: bool)
    requires codec.utf8(good) && codec.parse(good).Some? && codec.current(codec.parse(good).value)
    requires mutate(codec.parse(good).value).Some?
    ensures var calls, start := [Transaction(mutate)], Start([Transaction(mutate)], Some(good));
            var step := Step(0, Env(false, quarantines));
            var run := [step, step, Write(None), step, step, step, step, step, step];
            && !AllProtected(codec, calls, start, run)
            && After(codec, calls, start, run)
               == World(Some(codec.render(mutate(codec.parse(good).value).value)), None, [Done(true)],
                        [Foreign(None), Stored(0)], [0])
  {
    var calls, env := [Transaction(mutate)], Env(false, quarantines);
    var step, config := Step(0, env), codec.parse(good).value;
    var log: seq<Effect> := [Foreign(None)];
    var parsed := World(None, Some(0), [Parsed(config, good)], log, [0]);
    var ready := World(None, Some(0), [Ready(config, None)], log, [0]);
    assert Next(codec, calls, World(None, Some(0), [Read(good)], log, [0]), step) == parsed;
    assert Next(codec, calls, parsed, step) == ready;
    Loads(codec, mutate, good, None, env, parsed, ready);
    Finishes(codec, mutate, None, log, config, env);
    assert [step] + ([step] + ([Write(None)] + ([step] + ([step] + [step, step, step, step]))))
        == [step, step, Write(None), step, step, step, step, step, step];
    assert log + [Stored(0)] == [Foreign(None), Stored(0)];
  }
}
