/**
 Interrupted recovery converges when every key holds the kind of value its name stands for and no
 stuck run's queue has the name of another's concurrency set.
 */
module RecoveryConvergence {
  import opened Results
  import opened RunRecovery

  /** Every key of the runs holds the kind of value its name stands for, or nothing. */
  predicate Typed(ks: Keyspace, runs: seq<Run>, envKey: string)
  {
    && (envKey in ks ==> ks[envKey].Members?)
    && forall r | r in runs ::
         && (QueueKey(r) in ks ==> ks[QueueKey(r)].Scores?)
         && (ConcurrencyKey(r) in ks ==> ks[ConcurrencyKey(r)].Members?)
  }

  predicate Apart(runs: seq<Run>) { forall r, s | r in runs && s in runs :: QueueKey(r) != ConcurrencyKey(s) }

  predicate ApartFrom(runs: seq<Run>, envKey: string) { forall r | r in runs :: QueueKey(r) != envKey }

  // ----- The effect on one run -------------------------------------------------------------------

  /** After `cap` commands the run has left this set. */
  predicate Left(r: Run, key: string, envKey: string, cap: nat)
  {
    (key == ConcurrencyKey(r) && cap >= 2) || (key == envKey && cap >= 3)
  }

  predicate Joined(r: Run, key: string, cap: nat) { key == QueueKey(r) && cap >= 1 }

  /** Where the run is after `cap` of its commands, compared with before. */
  ghost predicate Moved(ks: Keyspace, ks': Keyspace, r: Run, envKey: string, cap: nat)
  {
    forall key ::
      && (r.id in MembersOf(ks', key) <==> r.id in MembersOf(ks, key) && !Left(r, key, envKey, cap))
      && (Queued(ks', key, r.id) <==> Queued(ks, key, r.id) || Joined(r, key, cap))
  }

  /** The run is where an uninterrupted pass puts it. */
  ghost predicate Recovered(ks: Keyspace, ks': Keyspace, r: Run, envKey: string) { Moved(ks, ks', r, envKey, 3) }

  lemma MovedOne(ks: Keyspace, r: Run, envKey: string, now: int, step: nat)
    requires step < 3 && Exec(ks, Commands(r, envKey, now)[step]).Some?
    ensures var ks' := Exec(ks, Commands(r, envKey, now)[step]).value;
      forall key ::
        && (r.id in MembersOf(ks', key) <==>
            r.id in MembersOf(ks, key) && !(step == 1 && key == ConcurrencyKey(r)) && !(step == 2 && key == envKey))
        && (Queued(ks', key, r.id) <==> Queued(ks, key, r.id) || (step == 0 && key == QueueKey(r)))
  {
    hide QueueKey, ConcurrencyKey;
  }

  lemma TypedStep(ks: Keyspace, runs: seq<Run>, envKey: string, r: Run, now: int, step: nat)
    requires Typed(ks, runs, envKey) && Apart(runs) && ApartFrom(runs, envKey) && r in runs && step < 3
    ensures Exec(ks, Commands(r, envKey, now)[step]).Some?
    ensures Typed(Exec(ks, Commands(r, envKey, now)[step]).value, runs, envKey)
  {
    hide QueueKey, ConcurrencyKey;
  }

  lemma RunMoves(ks: Keyspace, runs: seq<Run>, envKey: string, r: Run, now: int, cap: nat)
    requires Typed(ks, runs, envKey) && Apart(runs) && ApartFrom(runs, envKey) && r in runs
    ensures var ks' := ExecAll(ks, Commands(r, envKey, now), cap);
      Typed(ks', runs, envKey) && Moved(ks, ks', r, envKey, cap)
  {
    hide Typed, Exec, QueueKey, ConcurrencyKey, MembersOf, ScoresOf;
    var cs := Commands(r, envKey, now);
    assert cs[1..] == [cs[1], cs[2]] && cs[1..][1..] == [cs[2]] && cs[1..][1..][1..] == [];
    TypedStep(ks, runs, envKey, r, now, 0);
    MovedOne(ks, r, envKey, now, 0);
    var ks1 := Exec(ks, cs[0]).value;
    TypedStep(ks1, runs, envKey, r, now, 1);
    MovedOne(ks1, r, envKey, now, 1);
    var ks2 := Exec(ks1, cs[1]).value;
    TypedStep(ks2, runs, envKey, r, now, 2);
    MovedOne(ks2, r, envKey, now, 2);
    var ks3 := Exec(ks2, cs[2]).value;
    assert ExecAll(ks, cs, cap) == if cap == 0 then ks else if cap == 1 then ks1 else if cap == 2 then ks2 else ks3 by {
      UnrollCommands(ks, cs, cap, ks1, ks2, ks3);
    }
  }

  lemma UnrollCommands(ks: Keyspace, cs: seq<Command>, cap: nat, ks1: Keyspace, ks2: Keyspace, ks3: Keyspace)
    requires |cs| == 3 && Exec(ks, cs[0]) == Some(ks1) && Exec(ks1, cs[1]) == Some(ks2) && Exec(ks2, cs[2]) == Some(ks3)
    ensures ExecAll(ks, cs, cap) == if cap == 0 then ks else if cap == 1 then ks1 else if cap == 2 then ks2 else ks3
  {
    hide Exec;
    assert cs[1..] == [cs[1], cs[2]] && cs[1..][1..] == [cs[2]] && cs[1..][1..][1..] == [];
    if cap > 0 {
      assert ExecAll(ks, cs, cap) == ExecAll(ks1, cs[1..], cap - 1);
      if cap > 1 { assert ExecAll(ks1, cs[1..], cap - 1) == ExecAll(ks2, cs[1..][1..], cap - 2); }
      if cap > 2 { assert ExecAll(ks2, cs[1..][1..], cap - 2) == ExecAll(ks3, cs[1..][1..][1..], cap - 3); }
    }
  }

  /** In a pass every run moves as its own commands say, whatever happens to the others. */
  lemma {:induction false} AllMove(ks: Keyspace, todo: seq<Run>, runs: seq<Run>, envKey: string, now: int, caps: Caps,
                                   r: Run)
    requires Typed(ks, runs, envKey) && Apart(runs) && ApartFrom(runs, envKey) && Distinct(todo)
    requires r in todo && forall s | s in todo :: s in runs
    ensures Moved(ks, RecoverAll(ks, todo, envKey, now, caps), r, envKey, caps(r.id))
    decreases todo
  {
    hide Typed, Apart, ApartFrom, ExecAll, Left, Joined, MembersOf, ScoresOf;
    var head, next := todo[0], RecoverRun(ks, todo[0], envKey, now, caps);
    RunMoves(ks, runs, envKey, head, now, caps(head.id));
    if r == head {
      forall key ensures (r.id in MembersOf(RecoverAll(next, todo[1..], envKey, now, caps), key) <==>
          r.id in MembersOf(next, key))
                      && (Queued(RecoverAll(next, todo[1..], envKey, now, caps), key, r.id) <==>
                          Queued(next, key, r.id)) {
        OthersUntouched(next, todo[1..], envKey, now, caps, key, r.id);
      }
    } else {
      forall key ensures (r.id in MembersOf(next, key) <==> r.id in MembersOf(ks, key))
        && (Queued(next, key, r.id) <==> Queued(ks, key, r.id)) {
        var i :| 0 < i < |todo| && todo[i] == r;
        ExecAllOthers(ks, Commands(head, envKey, now), caps(head.id), key, r.id);
      }
      AllMove(next, todo[1..], runs, envKey, now, caps, r);
    }
  }

  lemma {:induction false} TypedAfter(ks: Keyspace, todo: seq<Run>, runs: seq<Run>, envKey: string, now: int,
                                      caps: Caps)
    requires Typed(ks, runs, envKey) && Apart(runs) && ApartFrom(runs, envKey) && forall s | s in todo :: s in runs
    ensures Typed(RecoverAll(ks, todo, envKey, now, caps), runs, envKey)
    decreases todo
  {
    hide Typed, Apart, ApartFrom, ExecAll, Moved;
    if todo != [] {
      RunMoves(ks, runs, envKey, todo[0], now, caps(todo[0].id));
      TypedAfter(RecoverRun(ks, todo[0], envKey, now, caps), todo[1..], runs, envKey, now, caps);
    }
  }

  // ----- Convergence -----------------------------------------------------------------------------

  /** A run that has left the environment's set is not touched by any later pass. */
  lemma {:induction false} GoneUntouched(ks: Keyspace, database: seq<Run>, envKey: string, attempts: seq<Attempt>,
                                         run: string)
    requires run !in MembersOf(ks, envKey)
    ensures var ks' := Passes(ks, database, envKey, attempts);
      forall key :: (run in MembersOf(ks', key) <==> run in MembersOf(ks, key))
        && (Queued(ks', key, run) <==> Queued(ks, key, run))
    decreases attempts
  {
    hide MembersOf, ScoresOf, Pass;
    if attempts != [] {
      var next := Pass(ks, database, envKey, attempts[0].now, attempts[0].caps);
      forall key ensures (run in MembersOf(next, key) <==> run in MembersOf(ks, key))
        && (Queued(next, key, run) <==> Queued(ks, key, run)) {
        NotStuckUntouched(ks, database, envKey, attempts[0].now, attempts[0].caps, key, run);
      }
      GoneUntouched(next, database, envKey, attempts[1..], run);
    }
  }

  /** A pass finds nothing new: what is stuck after it was stuck before it. */
  lemma StuckShrinks(ks: Keyspace, database: seq<Run>, envKey: string, now: int, caps: Caps, r: Run)
    requires Distinct(database)
    requires var stuck := Stuck(ks, database, envKey);
      Typed(ks, stuck, envKey) && Apart(stuck) && ApartFrom(stuck, envKey)
    requires r in Stuck(Pass(ks, database, envKey, now, caps), database, envKey)
    ensures r in Stuck(ks, database, envKey)
  {
    hide Typed, Apart, ApartFrom, Pass, MembersOf, ScoresOf;
    var next := Pass(ks, database, envKey, now, caps);
    StuckIs(next, database, envKey, r);
    StuckIs(ks, database, envKey, r);
    if r.id !in MembersOf(ks, envKey) { NotStuckUntouched(ks, database, envKey, now, caps, envKey, r.id); }
  }

  /** Moving part of the way and then all of the way is moving all of the way. */
  lemma MovedThenRecovered(ks0: Keyspace, ks1: Keyspace, ks2: Keyspace, r: Run, envKey: string, cap: nat)
    requires Moved(ks0, ks1, r, envKey, cap) && Moved(ks1, ks2, r, envKey, 3)
    ensures Moved(ks0, ks2, r, envKey, 3)
  {
    hide MembersOf, ScoresOf, QueueKey, ConcurrencyKey;
    forall key
      ensures r.id in MembersOf(ks2, key) <==> r.id in MembersOf(ks0, key) && !Left(r, key, envKey, 3)
      ensures Queued(ks2, key, r.id) <==> Queued(ks0, key, r.id) || Joined(r, key, 3)
    {
      assert r.id in MembersOf(ks1, key) <==> r.id in MembersOf(ks0, key) && !Left(r, key, envKey, cap);
      assert Queued(ks1, key, r.id) <==> Queued(ks0, key, r.id) || Joined(r, key, cap);
    }
  }

  /** Having left the environment's set means all three commands have had their effect. */
  lemma GoneIsRecovered(ks0: Keyspace, ks1: Keyspace, ks2: Keyspace, r: Run, envKey: string, cap: nat)
    requires Moved(ks0, ks1, r, envKey, cap) && r.id in MembersOf(ks0, envKey) && r.id !in MembersOf(ks1, envKey)
    requires forall key ::
      (r.id in MembersOf(ks2, key) <==> r.id in MembersOf(ks1, key))
        && (Queued(ks2, key, r.id) <==> Queued(ks1, key, r.id))
    ensures Moved(ks0, ks2, r, envKey, 3)
  {
    hide MembersOf, ScoresOf, QueueKey, ConcurrencyKey;
    assert Left(r, envKey, envKey, cap);
    forall key
      ensures r.id in MembersOf(ks2, key) <==> r.id in MembersOf(ks0, key) && !Left(r, key, envKey, 3)
      ensures Queued(ks2, key, r.id) <==> Queued(ks0, key, r.id) || Joined(r, key, 3)
    {
      assert r.id in MembersOf(ks1, key) <==> r.id in MembersOf(ks0, key) && !Left(r, key, envKey, cap);
      assert Queued(ks1, key, r.id) <==> Queued(ks0, key, r.id) || Joined(r, key, cap);
    }
  }

  function Complete(now: int): Attempt { Attempt(now, UNLIMITED) }

  lemma SubsetOk(ks: Keyspace, some: seq<Run>, runs: seq<Run>, envKey: string)
    requires Typed(ks, runs, envKey) && Apart(runs) && ApartFrom(runs, envKey) && forall r | r in some :: r in runs
    ensures Typed(ks, some, envKey) && Apart(some) && ApartFrom(some, envKey)
  {
    hide QueueKey, ConcurrencyKey;
  }

  /** After the next pass the conditions still hold, for whatever is still stuck. */
  lemma StillOk(ks: Keyspace, database: seq<Run>, envKey: string, now: int, caps: Caps)
    requires Distinct(database)
    requires var stuck := Stuck(ks, database, envKey);
      Typed(ks, stuck, envKey) && Apart(stuck) && ApartFrom(stuck, envKey)
    ensures var next := Pass(ks, database, envKey, now, caps); var stuck := Stuck(next, database, envKey);
      Typed(next, stuck, envKey) && Apart(stuck) && ApartFrom(stuck, envKey)
  {
    hide Typed, Apart, ApartFrom, RecoverAll, Stuck;
    var stuck, next := Stuck(ks, database, envKey), Pass(ks, database, envKey, now, caps);
    TypedAfter(ks, stuck, stuck, envKey, now, caps);
    forall r | r in Stuck(next, database, envKey) ensures r in stuck {
      StuckShrinks(ks, database, envKey, now, caps, r);
    }
    SubsetOk(next, Stuck(next, database, envKey), stuck, envKey);
  }

  lemma {:induction false} ConvergesFrom(ks: Keyspace, database: seq<Run>, envKey: string, attempts: seq<Attempt>,
                                         now: int, r: Run)
    requires Distinct(database)
    requires var stuck := Stuck(ks, database, envKey);
      Typed(ks, stuck, envKey) && Apart(stuck) && ApartFrom(stuck, envKey)
    requires r in Stuck(ks, database, envKey)
    ensures Recovered(ks, Passes(ks, database, envKey, attempts + [Complete(now)]), r, envKey)
    decreases attempts
  {
    hide Typed, Apart, ApartFrom, RecoverAll, Stuck, Moved, MembersOf, ScoresOf;
    var all := attempts + [Complete(now)];
    var first := all[0];
    var next := Pass(ks, database, envKey, first.now, first.caps);
    var end := Passes(next, database, envKey, all[1..]);
    StuckIs(ks, database, envKey, r);
    AllMove(ks, Stuck(ks, database, envKey), Stuck(ks, database, envKey), envKey, first.now, first.caps, r);
    if attempts == [] {
      assert all[1..] == [];
    } else {
      assert all[1..] == attempts[1..] + [Complete(now)];
      StuckIs(next, database, envKey, r);
      if r.id in MembersOf(next, envKey) {
        StillOk(ks, database, envKey, first.now, first.caps);
        ConvergesFrom(next, database, envKey, attempts[1..], now, r);
        MovedThenRecovered(ks, next, end, r, envKey, first.caps(r.id));
      } else {
        GoneUntouched(next, database, envKey, all[1..], r.id);
        GoneIsRecovered(ks, next, end, r, envKey, first.caps(r.id));
      }
    }
  }
}
