// The sequential form of a transaction is the concurrent one run alone among foreign writes.
module ConfigAlone {
  import opened Prelude
  import opened ConfigTransaction

  // A run that stops as soon as the one call is done.
  function Until(codec: Codec, calls: seq<Call>, w: World, run: seq<Action>): (w': World)
    requires |w.phases| == |calls| == 1
    ensures |w'.phases| == 1
    decreases |run|
  {
    if run == [] || w.phases[0].Done? then w else Until(codec, calls, Next(codec, calls, w, run[0]), run[1..])
  }

  lemma {:induction false} UntilIsAfter(codec: Codec, calls: seq<Call>, w: World, run: seq<Action>) returns (k: nat)
    requires |w.phases| == |calls| == 1
    ensures k <= |run| && Until(codec, calls, w, run) == After(codec, calls, w, run[..k])
    decreases |run|
  {
    if run == [] || w.phases[0].Done? {
      k := 0;
    } else {
      var j := UntilIsAfter(codec, calls, Next(codec, calls, w, run[0]), run[1..]);
      k := j + 1;
      assert run[..k][1..] == run[1..][..j];
    }
  }

  // A foreign write, where there is one.
  function Perhaps(write: Option<Option<Bytes>>): seq<Action> {
    if write.Some? then [Write(write.value)] else []
  }

  function Go(env: Env): Action { Step(0, env) }

  const SMOOTH := Env(false, false)

  // Mutate, recheck, save and return.
  function Rest(foreign: Meanwhile, saving: Env): seq<Action> {
    Perhaps(foreign.afterLoad)
    + ([Go(SMOOTH)] + ([Go(SMOOTH)] + (Perhaps(foreign.afterRecheck) + ([Go(saving)] + [Go(SMOOTH)]))))
  }

  // Parse and test.
  function Parsing(foreign: Meanwhile, env: Env, saving: Env): seq<Action> {
    Perhaps(foreign.afterRead) + ([Go(env)] + (Perhaps(foreign.afterParse) + ([Go(SMOOTH)] + Rest(foreign, saving))))
  }

  // Take the lease, read, and what follows: an absent file is neither parsed nor tested.
  function Script(file: Option<Bytes>, foreign: Meanwhile, env: Env, saving: Env): seq<Action> {
    [Go(SMOOTH)] + ([Go(env)] + if file.None? then Rest(foreign, saving) else Parsing(foreign, env, saving))
  }

  // ---------------------------------------------------------------------------
  // One step at a time
  // ---------------------------------------------------------------------------

  // The one call at work.
  function At1(file: Option<Bytes>, p: Phase, log: seq<Effect>): World { World(file, Some(0), [p], log, [0]) }

  // The run from here ends with this answer and this file.
  predicate EndsIn(codec: Codec, mutate: Mutation, w: World, run: seq<Action>, ok: bool, file: Option<Bytes>)
    requires |w.phases| == 1
  {
    var end := Until(codec, [Transaction(mutate)], w, run);
    end.phases == [Done(ok)] && end.file == file
  }

  lemma Advance(codec: Codec, mutate: Mutation, w: World, a: Action, rest: seq<Action>, ok: bool, file: Option<Bytes>)
    requires |w.phases| == 1 && !w.phases[0].Done?
    requires EndsIn(codec, mutate, Next(codec, [Transaction(mutate)], w, a), rest, ok, file)
    ensures EndsIn(codec, mutate, w, [a] + rest, ok, file)
  {
    assert ([a] + rest)[1..] == rest;
  }

  lemma Over(codec: Codec, mutate: Mutation, w: World, rest: seq<Action>, ok: bool)
    requires w.phases == [Done(ok)]
    ensures EndsIn(codec, mutate, w, rest, ok, w.file)
  {
  }

  function Logged(write: Option<Option<Bytes>>, log: seq<Effect>): seq<Effect> {
    if write.Some? then log + [Foreign(write.value)] else log
  }

  lemma MayMeet(
    codec: Codec, mutate: Mutation, file: Option<Bytes>, p: Phase, log: seq<Effect>, write: Option<Option<Bytes>>,
    rest: seq<Action>, ok: bool, left: Option<Bytes>)
    requires !p.Done? && EndsIn(codec, mutate, At1(Meet(write, file), p, Logged(write, log)), rest, ok, left)
    ensures EndsIn(codec, mutate, At1(file, p, log), Perhaps(write) + rest, ok, left)
  {
    if write.Some? {
      Advance(codec, mutate, At1(file, p, log), Write(write.value), rest, ok, left);
    } else {
      assert Perhaps(write) + rest == rest;
    }
  }

  // ---------------------------------------------------------------------------
  // Stage by stage, from the end
  // ---------------------------------------------------------------------------

  lemma FromChecked(
    codec: Codec, mutate: Mutation, file: Option<Bytes>, config: Config, log: seq<Effect>, foreign: Meanwhile,
    saving: Env)
    ensures var met := Meet(foreign.afterRecheck, file);
            EndsIn(codec, mutate, At1(file, Checked(config), log),
                   Perhaps(foreign.afterRecheck) + ([Go(saving)] + [Go(SMOOTH)]),
                   !saving.fails, if saving.fails then met else Some(codec.render(config)))
  {
    var calls := [Transaction(mutate)];
    var met, more := Meet(foreign.afterRecheck, file), Logged(foreign.afterRecheck, log);
    var left := if saving.fails then met else Some(codec.render(config));
    var w := At1(met, Checked(config), more);
    var next := Next(codec, calls, w, Go(saving));
    if saving.fails {
      Over(codec, mutate, next, [Go(SMOOTH)], false);
    } else {
      assert next == At1(left, Written, more + [Stored(0)]);
      var done := Next(codec, calls, next, Go(SMOOTH));
      Over(codec, mutate, done, [], true);
      Advance(codec, mutate, next, Go(SMOOTH), [], true, left);
    }
    Advance(codec, mutate, w, Go(saving), [Go(SMOOTH)], !saving.fails, left);
    MayMeet(codec, mutate, file, Checked(config), log, foreign.afterRecheck,
            [Go(saving)] + [Go(SMOOTH)], !saving.fails, left);
  }

  lemma FromReady(
    codec: Codec, mutate: Mutation, file: Option<Bytes>, config: Config, baseline: Option<Bytes>, log: seq<Effect>,
    foreign: Meanwhile, saving: Env)
    ensures var rechecked := Meet(foreign.afterLoad, file);
            var passes := mutate(config).Some? && rechecked == baseline;
            EndsIn(codec, mutate, At1(file, Ready(config, baseline), log), Rest(foreign, saving),
                   passes && !saving.fails,
                   if !passes then rechecked
                   else if saving.fails then Meet(foreign.afterRecheck, rechecked)
                   else Some(codec.render(mutate(config).value)))
  {
    var calls := [Transaction(mutate)];
    var rechecked, more := Meet(foreign.afterLoad, file), Logged(foreign.afterLoad, log);
    var passes := mutate(config).Some? && rechecked == baseline;
    var ok := passes && !saving.fails;
    var left := if !passes then rechecked
                else if saving.fails then Meet(foreign.afterRecheck, rechecked)
                else Some(codec.render(mutate(config).value));
    var tail := Perhaps(foreign.afterRecheck) + ([Go(saving)] + [Go(SMOOTH)]);
    var w := At1(rechecked, Ready(config, baseline), more);
    var next := Next(codec, calls, w, Go(SMOOTH));
    if mutate(config).None? {
      Over(codec, mutate, next, [Go(SMOOTH)] + tail, false);
    } else {
      assert next == At1(rechecked, Mutated(mutate(config).value, baseline), more);
      var then' := Next(codec, calls, next, Go(SMOOTH));
      if passes {
        assert then' == At1(rechecked, Checked(mutate(config).value), more);
        FromChecked(codec, mutate, rechecked, mutate(config).value, more, foreign, saving);
      } else {
        Over(codec, mutate, then', tail, false);
      }
      Advance(codec, mutate, next, Go(SMOOTH), tail, ok, left);
    }
    Advance(codec, mutate, w, Go(SMOOTH), [Go(SMOOTH)] + tail, ok, left);
    MayMeet(codec, mutate, file, Ready(config, baseline), log, foreign.afterLoad,
            [Go(SMOOTH)] + ([Go(SMOOTH)] + tail), ok, left);
  }

  // The answer and the file, as the sequential form gives them.
  predicate Agrees(
    codec: Codec, mutate: Mutation, w: World, run: seq<Action>, file: Option<Bytes>, foreign: Meanwhile, env: Env,
    saving: Env)
    requires |w.phases| == 1
  {
    var ok := !saving.fails && PassesRecheck(codec, file, mutate, foreign, env);
    EndsIn(codec, mutate, w, run, ok,
           if ok then Some(codec.render(mutate(ConfigOf(codec, file)).value))
           else FileLeft(codec, file, mutate, foreign, env))
  }

  lemma FromParsed(
    codec: Codec, mutate: Mutation, bytes: Bytes, log: seq<Effect>, foreign: Meanwhile, env: Env, saving: Env)
    requires !env.fails && Loadable(codec, Some(bytes))
    ensures var read := Some(bytes);
            var file := if MovesAside(codec, read, foreign, env) then None else Meet(foreign.afterRead, read);
            Agrees(codec, mutate, At1(file, Parsed(ConfigOf(codec, read), bytes), log),
                   Perhaps(foreign.afterParse) + ([Go(SMOOTH)] + Rest(foreign, saving)), read, foreign, env, saving)
  {
    var calls, read := [Transaction(mutate)], Some(bytes);
    var config := ConfigOf(codec, read);
    var file := if MovesAside(codec, read, foreign, env) then None else Meet(foreign.afterRead, read);
    var tested, more := Meet(foreign.afterParse, file), Logged(foreign.afterParse, log);
    var ok := !saving.fails && PassesRecheck(codec, read, mutate, foreign, env);
    var left := if ok then Some(codec.render(mutate(config).value)) else FileLeft(codec, read, mutate, foreign, env);
    assert tested == FileAtTest(codec, read, foreign, env);
    var w := At1(tested, Parsed(config, bytes), more);
    assert Next(codec, calls, w, Go(SMOOTH)) == At1(tested, Ready(config, BaselineOf(read, tested)), more);
    FromReady(codec, mutate, tested, config, BaselineOf(read, tested), more, foreign, saving);
    Advance(codec, mutate, w, Go(SMOOTH), Rest(foreign, saving), ok, left);
    MayMeet(codec, mutate, file, Parsed(config, bytes), log, foreign.afterParse,
            [Go(SMOOTH)] + Rest(foreign, saving), ok, left);
  }

  lemma FromRead(
    codec: Codec, mutate: Mutation, bytes: Bytes, foreign: Meanwhile, env: Env, saving: Env)
    requires !env.fails && codec.utf8(bytes)
    ensures Agrees(codec, mutate, At1(Some(bytes), Read(bytes), []), Parsing(foreign, env, saving),
                   Some(bytes), foreign, env, saving)
  {
    var calls, read := [Transaction(mutate)], Some(bytes);
    var met, log := Meet(foreign.afterRead, read), Logged(foreign.afterRead, []);
    var ok := !saving.fails && PassesRecheck(codec, read, mutate, foreign, env);
    var left := if ok then Some(codec.render(mutate(ConfigOf(codec, read)).value))
                else FileLeft(codec, read, mutate, foreign, env);
    var tail := Perhaps(foreign.afterParse) + ([Go(SMOOTH)] + Rest(foreign, saving));
    var w := At1(met, Read(bytes), log);
    var next := Next(codec, calls, w, Go(env));
    if Loadable(codec, read) {
      var aside := MovesAside(codec, read, foreign, env);
      var more := if aside then log + [Quarantined] else log;
      assert next == At1(if aside then None else met, Parsed(ConfigOf(codec, read), bytes), more);
      FromParsed(codec, mutate, bytes, more, foreign, env, saving);
    } else {
      Over(codec, mutate, next, tail, false);
    }
    Advance(codec, mutate, w, Go(env), tail, ok, left);
    MayMeet(codec, mutate, read, Read(bytes), [], foreign.afterRead, [Go(env)] + tail, ok, left);
  }

  // One transaction run alone, with the four foreign writes at their moments and any failures, ends with
  // the answer and the file of the sequential form.
  lemma AloneIsSequential(
    codec: Codec, mutate: Mutation, file: Option<Bytes>, foreign: Meanwhile, env: Env, saving: Env)
    ensures Agrees(codec, mutate, Start([Transaction(mutate)], file), Script(file, foreign, env, saving),
                   file, foreign, env, saving)
  {
    var calls := [Transaction(mutate)];
    var ok := !saving.fails && PassesRecheck(codec, file, mutate, foreign, env);
    var left := if ok then Some(codec.render(mutate(ConfigOf(codec, file)).value))
                else FileLeft(codec, file, mutate, foreign, env);
    var tail := if file.None? then Rest(foreign, saving) else Parsing(foreign, env, saving);
    var locked := At1(file, Locked, []);
    var next := Next(codec, calls, locked, Go(env));
    if env.fails || (file.Some? && !codec.utf8(file.value)) {
      Over(codec, mutate, next, tail, false);
    } else if file.None? {
      assert next == At1(None, Ready(codec.initial, None), []);
      FromReady(codec, mutate, None, codec.initial, None, [], foreign, saving);
    } else {
      assert next == At1(file, Read(file.value), []);
      FromRead(codec, mutate, file.value, foreign, env, saving);
    }
    Advance(codec, mutate, locked, Go(env), tail, ok, left);
    assert Next(codec, calls, Start(calls, file), Go(SMOOTH)) == locked;
    Advance(codec, mutate, Start(calls, file), Go(SMOOTH), [Go(env)] + tail, ok, left);
  }

  // The sequential method is a run of the machine: the script, as far as it goes.
  method Transact(codec: Codec, config: ConfigFile, mutate: Mutation, foreign: Meanwhile, env: Env, saving: Env)
    returns (ok: bool, ghost run: seq<Action>)
    modifies config
    ensures run <= Script(old(config.file), foreign, env, saving)
    ensures var end := After(codec, [Transaction(mutate)], Start([Transaction(mutate)], old(config.file)), run);
            end.phases == [Done(ok)] && end.file == config.file
  {
    ghost var calls := [Transaction(mutate)];
    ghost var script := Script(config.file, foreign, env, saving);
    AloneIsSequential(codec, mutate, config.file, foreign, env, saving);
    ghost var k := UntilIsAfter(codec, calls, Start(calls, config.file), script);
    run := script[..k];
    ok := config.TransactionAt(codec, mutate, foreign, env, saving);
  }
}
