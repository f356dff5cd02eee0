/**
 When interrupted recovery converges, exactly: a stuck run whose keys hold the wrong kind of value, or
 can come to hold it because two names clash, is left behind by some sequence of interruptions.
 */
module RecoveryClashes {
  import opened Results
  import opened RunRecovery
  import opened RecoveryConvergence

  predicate IsQueue(ks: Keyspace, key: string) { key in ks && ks[key].Scores? }

  predicate IsSet(ks: Keyspace, key: string) { key in ks && ks[key].Members? }

  lemma SameId(database: seq<Run>, t: Run, r: Run)
    requires Distinct(database) && t in database && r in database
    ensures t.id == r.id ==> t == r
  {
  }

  /** Among the runs found by a pass, an id stands for one run. */
  lemma OneRunPerId(ks: Keyspace, database: seq<Run>, envKey: string, r: Run)
    requires Distinct(database) && r in database
    ensures forall t | t in Stuck(ks, database, envKey) && t.id == r.id :: t == r
  {
    hide Stuck;
    forall t | t in Stuck(ks, database, envKey) && t.id == r.id ensures t == r {
      StuckIs(ks, database, envKey, t);
      SameId(database, t, r);
    }
  }

  // ----- A concurrency set that is a queue -------------------------------------------------------

  lemma {:induction false} StaysQueue(ks: Keyspace, commands: seq<Command>, cap: nat, key: string)
    requires IsQueue(ks, key)
    ensures IsQueue(ExecAll(ks, commands, cap), key)
    decreases commands
  {
    if commands != [] && cap > 0 && Exec(ks, commands[0]).Some? {
      assert IsQueue(Exec(ks, commands[0]).value, key);
      StaysQueue(Exec(ks, commands[0]).value, commands[1..], cap - 1, key);
    }
  }

  /** A run whose concurrency set is a queue stays in the environment's set. */
  lemma BlockedRun(ks: Keyspace, s: Run, envKey: string, now: int, cap: nat)
    requires IsQueue(ks, ConcurrencyKey(s)) && s.id in MembersOf(ks, envKey)
    ensures s.id in MembersOf(ExecAll(ks, Commands(s, envKey, now), cap), envKey)
  {
    hide QueueKey, ConcurrencyKey;
    var cs := Commands(s, envKey, now);
    if cap > 0 && Exec(ks, cs[0]).Some? {
      var ks1 := Exec(ks, cs[0]).value;
      assert cs[1..][0] == SRem(ConcurrencyKey(s), s.id);
      assert IsQueue(ks1, ConcurrencyKey(s)) && s.id in MembersOf(ks1, envKey);
      assert ExecAll(ks, cs, cap) == ExecAll(ks1, cs[1..], cap - 1);
      assert cap > 1 ==> Exec(ks1, cs[1..][0]).None?;
    }
  }

  lemma {:induction false} BlockedStays(ks: Keyspace, todo: seq<Run>, envKey: string, now: int, caps: Caps, s: Run)
    requires IsQueue(ks, ConcurrencyKey(s)) && s.id in MembersOf(ks, envKey)
    requires forall t | t in todo && t.id == s.id :: t == s
    ensures s.id in MembersOf(RecoverAll(ks, todo, envKey, now, caps), envKey)
    decreases todo
  {
    hide ExecAll, MembersOf, ScoresOf, QueueKey, ConcurrencyKey, IsQueue;
    if todo != [] {
      var next := RecoverRun(ks, todo[0], envKey, now, caps);
      StaysQueue(ks, Commands(todo[0], envKey, now), caps(todo[0].id), ConcurrencyKey(s));
      if todo[0].id == s.id {
        BlockedRun(ks, s, envKey, now, caps(s.id));
      } else {
        ExecAllOthers(ks, Commands(todo[0], envKey, now), caps(todo[0].id), envKey, s.id);
      }
      BlockedStays(next, todo[1..], envKey, now, caps, s);
    }
  }

  /** One complete pass after the others. */
  lemma LastPass(ks: Keyspace, database: seq<Run>, envKey: string, now: int)
    ensures Passes(ks, database, envKey, [Complete(now)]) == Pass(ks, database, envKey, now, UNLIMITED)
  {
    assert [Complete(now)][1..] == [];
  }

  lemma QueueBlocks(ks: Keyspace, database: seq<Run>, envKey: string, s: Run, now: int)
    requires Distinct(database) && s in Stuck(ks, database, envKey) && IsQueue(ks, ConcurrencyKey(s))
    ensures s.id in MembersOf(Passes(ks, database, envKey, [Complete(now)]), envKey)
  {
    hide Stuck, RecoverAll, MembersOf, IsQueue;
    StuckIs(ks, database, envKey, s);
    OneRunPerId(ks, database, envKey, s);
    BlockedStays(ks, Stuck(ks, database, envKey), envKey, now, UNLIMITED, s);
    LastPass(ks, database, envKey, now);
  }

  // ----- A queue that becomes another run's concurrency set --------------------------------------

  lemma {:induction false} NobodyMoves(ks: Keyspace, todo: seq<Run>, envKey: string, now: int, caps: Caps)
    requires forall t | t in todo :: caps(t.id) == 0
    ensures RecoverAll(ks, todo, envKey, now, caps) == ks
    decreases todo
  {
    if todo != [] { NobodyMoves(ks, todo[1..], envKey, now, caps); }
  }

  /** A pass in which only one run gets its commands through. */
  lemma {:induction false} OnlyOneMoves(ks: Keyspace, todo: seq<Run>, envKey: string, now: int, caps: Caps, r: Run)
    requires Distinct(todo) && r in todo && forall t | t in todo && t != r :: caps(t.id) == 0
    ensures RecoverAll(ks, todo, envKey, now, caps) == RecoverRun(ks, r, envKey, now, caps)
    decreases todo
  {
    hide Commands;
    if todo[0] == r {
      forall t | t in todo[1..] ensures caps(t.id) == 0 { var i :| 0 < i < |todo| && todo[i] == t; }
      NobodyMoves(RecoverRun(ks, r, envKey, now, caps), todo[1..], envKey, now, caps);
    } else {
      OnlyOneMoves(ks, todo[1..], envKey, now, caps, r);
    }
  }

  lemma QueueIsMade(ks: Keyspace, r: Run, envKey: string, now: int)
    requires !IsSet(ks, QueueKey(r))
    ensures IsQueue(ExecAll(ks, Commands(r, envKey, now), 3), QueueKey(r))
  {
    hide QueueKey;
    var cs := Commands(r, envKey, now);
    var ks1 := Exec(ks, cs[0]).value;
    assert ExecAll(ks, cs, 3) == ExecAll(ks1, cs[1..], 2);
    StaysQueue(ks1, cs[1..], 2, QueueKey(r));
  }

  function OnlyFor(id: string): Caps { x => if x == id then 3 else 0 }

  /**
   Where a queue has the name of another stuck run's concurrency set and is not a set yet, a pass in
   which its run alone gets through leaves the other run stuck for good.
   */
  lemma ClashBlocks(ks: Keyspace, database: seq<Run>, envKey: string, r: Run, s: Run, now: int)
    requires Distinct(database) && r in Stuck(ks, database, envKey) && s in Stuck(ks, database, envKey)
    requires QueueKey(r) == ConcurrencyKey(s) && !IsSet(ks, QueueKey(r))
    ensures s.id in MembersOf(Passes(ks, database, envKey, [Attempt(now, OnlyFor(r.id)), Complete(now)]), envKey)
  {
    hide Stuck, EnvPrefix, ExecAll, MembersOf, ScoresOf, RecoverAll, IsQueue, IsSet;
    var stuck, caps := Stuck(ks, database, envKey), OnlyFor(r.id);
    assert |QueueKey(s)| < |ConcurrencyKey(s)|;
    StuckIs(ks, database, envKey, r);
    StuckIs(ks, database, envKey, s);
    QueueIsMade(ks, r, envKey, now);
    SameId(database, r, s);
    hide QueueKey, ConcurrencyKey;
    OneRunPerId(ks, database, envKey, r);
    var ks1 := Pass(ks, database, envKey, now, caps);
    OnlyOneMoves(ks, stuck, envKey, now, caps, r);
    ExecAllOthers(ks, Commands(r, envKey, now), 3, envKey, s.id);
    StuckIs(ks1, database, envKey, s);
    QueueBlocks(ks1, database, envKey, s, now);
    var all := [Attempt(now, caps), Complete(now)];
    assert all[1..] == [Complete(now)];
    assert Passes(ks, database, envKey, all) == Passes(ks1, database, envKey, all[1..]);
  }

  // ----- A queue that is a set -------------------------------------------------------------------

  /** The key holds a set, with `x` in it if one is given. */
  predicate Shut(ks: Keyspace, key: string, x: Option<string>)
  {
    IsSet(ks, key) && (x.Some? ==> x.value in ks[key].runs)
  }

  /** The run's commands cannot open the key. */
  predicate Harmless(t: Run, key: string, envKey: string, x: Option<string>)
  {
    (ConcurrencyKey(t) != key && envKey != key) || (x.Some? && t.id != x.value)
  }

  predicate Spares(c: Command, key: string, x: Option<string>)
  {
    c.SRem? && c.key == key ==> x.Some? && c.run != x.value
  }

  lemma ShutStep(ks: Keyspace, c: Command, key: string, x: Option<string>)
    requires Shut(ks, key, x) && Spares(c, key, x) && Exec(ks, c).Some?
    ensures Shut(Exec(ks, c).value, key, x)
  {
  }

  lemma {:induction false} StaysShut(ks: Keyspace, commands: seq<Command>, cap: nat, key: string, x: Option<string>)
    requires Shut(ks, key, x) && forall i | 0 <= i < |commands| :: Spares(commands[i], key, x)
    ensures Shut(ExecAll(ks, commands, cap), key, x)
    decreases commands
  {
    hide Shut, Spares, Exec;
    if commands != [] && cap > 0 && Exec(ks, commands[0]).Some? {
      ShutStep(ks, commands[0], key, x);
      StaysShut(Exec(ks, commands[0]).value, commands[1..], cap - 1, key, x);
    }
  }

  lemma HarmlessSpares(t: Run, key: string, envKey: string, now: int, x: Option<string>)
    requires Harmless(t, key, envKey, x)
    ensures forall i | 0 <= i < 3 :: Spares(Commands(t, envKey, now)[i], key, x)
  {
  }

  /** The first command of a run whose queue is a set fails, and so nothing happens to it. */
  lemma BarredRun(ks: Keyspace, r: Run, envKey: string, now: int, cap: nat)
    requires IsSet(ks, QueueKey(r))
    ensures ExecAll(ks, Commands(r, envKey, now), cap) == ks
  {
    hide QueueKey, ConcurrencyKey;
    var cs := Commands(r, envKey, now);
    assert Exec(ks, cs[0]).None?;
  }

  lemma {:induction false} BarredStays(ks: Keyspace, todo: seq<Run>, envKey: string, now: int, caps: Caps, r: Run,
                                       x: Option<string>)
    requires Shut(ks, QueueKey(r), x) && r.id in MembersOf(ks, envKey)
    requires forall t | t in todo && t.id == r.id :: t == r
    requires forall t | t in todo && t != r :: Harmless(t, QueueKey(r), envKey, x)
    ensures r.id in MembersOf(RecoverAll(ks, todo, envKey, now, caps), envKey)
    decreases todo
  {
    hide ExecAll, MembersOf, ScoresOf, QueueKey, ConcurrencyKey, Spares, Harmless;
    if todo != [] {
      var next := RecoverRun(ks, todo[0], envKey, now, caps);
      if todo[0].id == r.id {
        BarredRun(ks, r, envKey, now, caps(r.id));
      } else {
        HarmlessSpares(todo[0], QueueKey(r), envKey, now, x);
        StaysShut(ks, Commands(todo[0], envKey, now), caps(todo[0].id), QueueKey(r), x);
        ExecAllOthers(ks, Commands(todo[0], envKey, now), caps(todo[0].id), envKey, r.id);
      }
      BarredStays(next, todo[1..], envKey, now, caps, r, x);
    }
  }

  lemma SetBars(ks: Keyspace, database: seq<Run>, envKey: string, r: Run, x: Option<string>, now: int)
    requires Distinct(database) && r in Stuck(ks, database, envKey) && Shut(ks, QueueKey(r), x)
    requires forall t | t in Stuck(ks, database, envKey) && t != r :: Harmless(t, QueueKey(r), envKey, x)
    ensures r.id in MembersOf(Passes(ks, database, envKey, [Complete(now)]), envKey)
  {
    hide Stuck, RecoverAll, MembersOf, Shut, Harmless;
    StuckIs(ks, database, envKey, r);
    OneRunPerId(ks, database, envKey, r);
    BarredStays(ks, Stuck(ks, database, envKey), envKey, now, UNLIMITED, r, x);
    LastPass(ks, database, envKey, now);
  }

  // ----- Emptying a set that bars a queue --------------------------------------------------------

  lemma SuffixInjective(a: string, b: string)
    requires a + SUFFIX == b + SUFFIX
    ensures a == b
  {
    assert |a| == |b|;
    assert a == (a + SUFFIX)[..|a|] == (b + SUFFIX)[..|b|] == b;
  }

  /** Two commands for every run whose concurrency set has this name, none for the others. */
  function DrainCaps(runs: seq<Run>, key: string): Caps
  {
    id => if exists t | t in runs :: t.id == id && ConcurrencyKey(t) == key then 2 else 0
  }

  lemma DrainKey(ks: Keyspace, queue: string, key: string, envKey: string, run: string, now: int)
    requires queue != key && key != envKey && !IsSet(ks, queue) && !IsQueue(ks, key)
    ensures var ks1 := Exec(ks, ZAdd(queue, now, run));
      && ks1.Some? && Exec(ks1.value, SRem(key, run)).Some?
      && var ks' := Exec(ks1.value, SRem(key, run)).value;
      && !IsSet(ks', queue) && !IsQueue(ks', key)
      && MembersOf(ks', key) == MembersOf(ks, key) - {run} && (key in ks' ==> MembersOf(ks', key) != {})
      && MembersOf(ks', envKey) == MembersOf(ks, envKey)
  {
  }

  lemma DrainRun(ks: Keyspace, t: Run, envKey: string, now: int)
    requires ConcurrencyKey(t) != envKey && !IsSet(ks, QueueKey(t)) && !IsQueue(ks, ConcurrencyKey(t))
    ensures var ks', key := ExecAll(ks, Commands(t, envKey, now), 2), ConcurrencyKey(t);
      && !IsSet(ks', QueueKey(t)) && !IsQueue(ks', key)
      && MembersOf(ks', key) == MembersOf(ks, key) - {t.id} && (key in ks' ==> MembersOf(ks', key) != {})
      && MembersOf(ks', envKey) == MembersOf(ks, envKey)
  {
    assert |QueueKey(t)| < |ConcurrencyKey(t)|;
    DrainKey(ks, QueueKey(t), ConcurrencyKey(t), envKey, t.id, now);
    hide QueueKey, ConcurrencyKey, Exec, IsSet, IsQueue, MembersOf;
    var cs := Commands(t, envKey, now);
    assert cs[1..] == [SRem(ConcurrencyKey(t), t.id), SRem(envKey, t.id)] && cs[1..][1..] == [SRem(envKey, t.id)];
    var ks1 := Exec(ks, cs[0]).value;
    var ks2 := Exec(ks1, cs[1]).value;
    assert ExecAll(ks, cs, 2) == ExecAll(ks1, cs[1..], 1);
    assert ExecAll(ks1, cs[1..], 1) == ExecAll(ks2, cs[1..][1..], 0) == ks2;
  }

  /** Every run that could open the set has left it, and nobody has left the environment's set. */
  lemma {:induction false} DrainAll(ks: Keyspace, todo: seq<Run>, envKey: string, now: int, caps: Caps, s: Run)
    requires ConcurrencyKey(s) != envKey && !IsSet(ks, QueueKey(s)) && !IsQueue(ks, ConcurrencyKey(s))
    requires forall t | t in todo :: caps(t.id) == if ConcurrencyKey(t) == ConcurrencyKey(s) then 2 else 0
    ensures var ks', key := RecoverAll(ks, todo, envKey, now, caps), ConcurrencyKey(s);
      && !IsQueue(ks', key) && MembersOf(ks', envKey) == MembersOf(ks, envKey)
        && MembersOf(ks', key) <= MembersOf(ks, key)
      && (forall t | t in todo && ConcurrencyKey(t) == key :: t.id !in MembersOf(ks', key))
      && ((key in ks ==> MembersOf(ks, key) != {}) || s in todo ==> (key in ks' ==> MembersOf(ks', key) != {}))
    decreases todo
  {
    hide ExecAll, MembersOf, QueueKey, IsSet, IsQueue;
    if todo != [] {
      var t := todo[0];
      if ConcurrencyKey(t) == ConcurrencyKey(s) {
        SuffixInjective(QueueKey(t), QueueKey(s));
        DrainRun(ks, t, envKey, now);
      } else {
        NothingSent(ks, t, envKey, now);
      }
      DrainAll(RecoverRun(ks, t, envKey, now, caps), todo[1..], envKey, now, caps, s);
    }
  }

  lemma NothingSent(ks: Keyspace, t: Run, envKey: string, now: int)
    ensures ExecAll(ks, Commands(t, envKey, now), 0) == ks
  {
  }

  lemma {:induction false} StuckSame(ks: Keyspace, ks': Keyspace, database: seq<Run>, envKey: string)
    requires MembersOf(ks', envKey) == MembersOf(ks, envKey)
    ensures Stuck(ks', database, envKey) == Stuck(ks, database, envKey)
    decreases database
  {
    hide MembersOf;
    if database != [] { StuckSame(ks, ks', database[1..], envKey); }
  }

  /** The pass that empties the concurrency set of `s` as far as stuck runs can. */
  lemma DrainPass(ks: Keyspace, database: seq<Run>, envKey: string, s: Run, now: int)
    requires Distinct(database) && s in Stuck(ks, database, envKey)
    requires ConcurrencyKey(s) != envKey && !IsSet(ks, QueueKey(s)) && !IsQueue(ks, ConcurrencyKey(s))
    ensures var stuck, key := Stuck(ks, database, envKey), ConcurrencyKey(s);
      var ks' := Pass(ks, database, envKey, now, DrainCaps(stuck, key));
      && Stuck(ks', database, envKey) == stuck && MembersOf(ks', envKey) == MembersOf(ks, envKey)
      && !IsQueue(ks', key) && (key in ks' ==> MembersOf(ks', key) != {})
      && (forall t | t in stuck && ConcurrencyKey(t) == key :: t.id !in MembersOf(ks', key))
  {
    hide Stuck, MembersOf, QueueKey, ConcurrencyKey, RecoverAll, IsSet, IsQueue;
    var stuck, key := Stuck(ks, database, envKey), ConcurrencyKey(s);
    var caps := DrainCaps(stuck, key);
    forall t | t in stuck ensures caps(t.id) == if ConcurrencyKey(t) == key then 2 else 0 {
      StuckIs(ks, database, envKey, t);
      OneRunPerId(ks, database, envKey, t);
    }
    DrainAll(ks, stuck, envKey, now, caps, s);
    StuckSame(ks, Pass(ks, database, envKey, now, caps), database, envKey);
  }

  /**
   A stuck run whose queue is a set is left behind, or the run whose concurrency set that is: emptying
   the set only makes room for the queue, which then blocks the set's own run.
   */
  lemma {:induction false} SetBlocks(ks: Keyspace, database: seq<Run>, envKey: string, r: Run)
    returns (attempts: seq<Attempt>, left: Run)
    requires Distinct(database) && r in Stuck(ks, database, envKey) && IsSet(ks, QueueKey(r))
    requires forall s | s in Stuck(ks, database, envKey) :: !IsQueue(ks, ConcurrencyKey(s))
    ensures left in Stuck(ks, database, envKey)
    ensures left.id in MembersOf(Passes(ks, database, envKey, attempts + [Complete(0)]), envKey)
    decreases |QueueKey(r)|
  {
    var stuck, key := Stuck(ks, database, envKey), QueueKey(r);
    StuckIs(ks, database, envKey, r);
    assert key == envKey ==> r.id in ks[key].runs;
    hide Stuck, QueueKey, Passes, Pass, MembersOf;
    attempts, left := [], r;
    if key == envKey {
      OneRunPerId(ks, database, envKey, r);
      SetBars(ks, database, envKey, r, Some(r.id), 0);
      assert [] + [Complete(0)] == [Complete(0)];
    } else if s :| s in stuck && ConcurrencyKey(s) == key {
      if IsSet(ks, QueueKey(s)) {
        attempts, left := SetBlocks(ks, database, envKey, s);
      } else {
        attempts, left := DrainThenBlock(ks, database, envKey, r, s);
      }
    } else {
      SetBars(ks, database, envKey, r, None, 0);
      assert [] + [Complete(0)] == [Complete(0)];
    }
  }

  lemma DrainThenBlock(ks: Keyspace, database: seq<Run>, envKey: string, r: Run, s: Run)
    returns (attempts: seq<Attempt>, left: Run)
    requires Distinct(database) && r in Stuck(ks, database, envKey) && s in Stuck(ks, database, envKey)
    requires QueueKey(r) == ConcurrencyKey(s) != envKey && !IsSet(ks, QueueKey(s)) && !IsQueue(ks, ConcurrencyKey(s))
    ensures left in Stuck(ks, database, envKey)
    ensures left.id in MembersOf(Passes(ks, database, envKey, attempts + [Complete(0)]), envKey)
  {
    hide Stuck, QueueKey, ConcurrencyKey, Pass, DrainCaps, Distinct;
    var stuck, key := Stuck(ks, database, envKey), QueueKey(r);
    var first := Attempt(0, DrainCaps(stuck, key));
    var ks1 := Pass(ks, database, envKey, 0, first.caps);
    DrainPass(ks, database, envKey, s, 0);
    if IsSet(ks1, key) {
      var x :| x in MembersOf(ks1, key);
      SetBars(ks1, database, envKey, r, Some(x), 0);
      attempts, left := [first], r;
      assert (attempts + [Complete(0)])[1..] == [Complete(0)];
    } else {
      ClashBlocks(ks1, database, envKey, r, s, 0);
      attempts, left := [first, Attempt(0, OnlyFor(r.id))], s;
      assert (attempts + [Complete(0)])[1..] == [Attempt(0, OnlyFor(r.id)), Complete(0)];
    }
  }

  // ----- The exact condition ---------------------------------------------------------------------

  /** However often passes are interrupted, a complete one then puts every run where one complete pass would have. */
  ghost predicate AlwaysConverges(ks: Keyspace, database: seq<Run>, envKey: string)
  {
    forall attempts, now, r | r in Stuck(ks, database, envKey) ::
      Recovered(ks, Passes(ks, database, envKey, attempts + [Complete(now)]), r, envKey)
  }

  lemma LeftBehind(ks: Keyspace, database: seq<Run>, envKey: string, attempts: seq<Attempt>, r: Run)
    requires r in Stuck(ks, database, envKey)
    requires r.id in MembersOf(Passes(ks, database, envKey, attempts + [Complete(0)]), envKey)
    ensures !AlwaysConverges(ks, database, envKey)
  {
    hide Passes, Stuck, QueueKey, ConcurrencyKey, MembersOf, ScoresOf;
    assert Left(r, envKey, envKey, 3);
    assert !Recovered(ks, Passes(ks, database, envKey, attempts + [Complete(0)]), r, envKey);
  }

  lemma LeftByQueue(ks: Keyspace, database: seq<Run>, envKey: string, s: Run)
    requires Distinct(database) && s in Stuck(ks, database, envKey) && IsQueue(ks, ConcurrencyKey(s))
    ensures !AlwaysConverges(ks, database, envKey)
  {
    hide Stuck, ConcurrencyKey, AlwaysConverges, Passes, MembersOf, IsQueue;
    QueueBlocks(ks, database, envKey, s, 0);
    assert [] + [Complete(0)] == [Complete(0)];
    LeftBehind(ks, database, envKey, [], s);
  }

  lemma LeftByClash(ks: Keyspace, database: seq<Run>, envKey: string, r: Run, s: Run)
    requires Distinct(database) && r in Stuck(ks, database, envKey) && s in Stuck(ks, database, envKey)
    requires QueueKey(r) == ConcurrencyKey(s) && !IsSet(ks, QueueKey(r))
    ensures !AlwaysConverges(ks, database, envKey)
  {
    hide Stuck, QueueKey, ConcurrencyKey, AlwaysConverges, Passes, MembersOf, IsSet;
    ClashBlocks(ks, database, envKey, r, s, 0);
    assert [Attempt(0, OnlyFor(r.id))] + [Complete(0)] == [Attempt(0, OnlyFor(r.id)), Complete(0)];
    LeftBehind(ks, database, envKey, [Attempt(0, OnlyFor(r.id))], s);
  }

  lemma LeftBySet(ks: Keyspace, database: seq<Run>, envKey: string, r: Run)
    requires Distinct(database) && r in Stuck(ks, database, envKey) && IsSet(ks, QueueKey(r))
    requires forall s | s in Stuck(ks, database, envKey) :: !IsQueue(ks, ConcurrencyKey(s))
    ensures !AlwaysConverges(ks, database, envKey)
  {
    hide Stuck, QueueKey, ConcurrencyKey, AlwaysConverges, Passes, MembersOf, IsSet, IsQueue;
    var attempts, left := SetBlocks(ks, database, envKey, r);
    LeftBehind(ks, database, envKey, attempts, left);
  }

  lemma TypedOtherwise(ks: Keyspace, runs: seq<Run>, envKey: string)
    requires IsSet(ks, envKey) && forall r | r in runs :: !IsQueue(ks, ConcurrencyKey(r)) && !IsSet(ks, QueueKey(r))
    ensures Typed(ks, runs, envKey)
  {
    hide QueueKey, ConcurrencyKey;
  }

  lemma FoundInSet(ks: Keyspace, database: seq<Run>, envKey: string)
    requires Stuck(ks, database, envKey) != []
    ensures IsSet(ks, envKey)
  {
    StuckIs(ks, database, envKey, Stuck(ks, database, envKey)[0]);
  }

  lemma SomeoneIsLeft(ks: Keyspace, database: seq<Run>, envKey: string)
    requires Distinct(database) && Stuck(ks, database, envKey) != []
    requires var stuck := Stuck(ks, database, envKey); !(Apart(stuck) && Typed(ks, stuck, envKey))
    ensures !AlwaysConverges(ks, database, envKey)
  {
    hide Stuck, QueueKey, ConcurrencyKey, AlwaysConverges, Typed, IsSet, IsQueue;
    var stuck := Stuck(ks, database, envKey);
    FoundInSet(ks, database, envKey);
    if s :| s in stuck && IsQueue(ks, ConcurrencyKey(s)) {
      LeftByQueue(ks, database, envKey, s);
    } else if r :| r in stuck && IsSet(ks, QueueKey(r)) {
      LeftBySet(ks, database, envKey, r);
    } else {
      TypedOtherwise(ks, stuck, envKey);
      var r, s :| r in stuck && s in stuck && QueueKey(r) == ConcurrencyKey(s);
      LeftByClash(ks, database, envKey, r, s);
    }
  }

  lemma EveryoneConverges(ks: Keyspace, database: seq<Run>, envKey: string)
    requires Distinct(database)
    requires var stuck := Stuck(ks, database, envKey); Apart(stuck) && Typed(ks, stuck, envKey)
    ensures AlwaysConverges(ks, database, envKey)
  {
    var stuck := Stuck(ks, database, envKey);
    forall r | r in stuck ensures QueueKey(r) != envKey { StuckIs(ks, database, envKey, r); }
    hide Stuck, Passes, Typed, Apart;
    forall attempts, now, r | r in stuck
      ensures Recovered(ks, Passes(ks, database, envKey, attempts + [Complete(now)]), r, envKey)
    {
      ConvergesFrom(ks, database, envKey, attempts, now, r);
    }
  }

  /**
   On every keyspace, recovery converges under every interruption exactly when nothing is stuck, or no
   stuck run's queue has the name of a stuck run's concurrency set and all their keys hold the kind of
   value they are named for.
   */
  lemma ConvergesExactly(ks: Keyspace, database: seq<Run>, envKey: string)
    requires Distinct(database)
    ensures var stuck := Stuck(ks, database, envKey);
      AlwaysConverges(ks, database, envKey) <==> stuck == [] || (Apart(stuck) && Typed(ks, stuck, envKey))
  {
    var stuck := Stuck(ks, database, envKey);
    if stuck != [] && !(Apart(stuck) && Typed(ks, stuck, envKey)) {
      SomeoneIsLeft(ks, database, envKey);
    } else if stuck != [] {
      EveryoneConverges(ks, database, envKey);
    }
  }

  // ----- A clash in the ordinary state -----------------------------------------------------------

  function Add(ks: Keyspace, key: string, run: string): Keyspace
  {
    ks[key := Members(MembersOf(ks, key) + {run})]
  }

  /** Starting a run adds it to its queue's concurrency set and to the environment's. */
  function Admit(ks: Keyspace, r: Run, envKey: string): Keyspace
  {
    Add(Add(ks, ConcurrencyKey(r), r.id), envKey, r.id)
  }

  /** Two runs of one queue, with the concurrency keys `x` and `x:currentConcurrency`. */
  function Plain(org: string, project: string, env: string): Run { Run("a", org, project, env, "q", Some("x")) }

  function Suffixed(org: string, project: string, env: string): Run
  {
    Run("b", org, project, env, "q", Some("x" + SUFFIX))
  }

  lemma KeysOfBoth(org: string, project: string, env: string)
    ensures var r, s, envKey := Suffixed(org, project, env), Plain(org, project, env), EnvKey(org, project, env);
      QueueKey(r) == ConcurrencyKey(s) && ConcurrencyKey(r) != ConcurrencyKey(s)
        && envKey !in {ConcurrencyKey(r), ConcurrencyKey(s)}
  {
    var r, s, envKey := Suffixed(org, project, env), Plain(org, project, env), EnvKey(org, project, env);
    assert QueueKey(r) == QueueKey(s) + SUFFIX;
    assert |ConcurrencyKey(r)| == |ConcurrencyKey(s)| + |SUFFIX| && |ConcurrencyKey(s)| > |envKey|;
  }

  lemma BothStuck(r: Run, s: Run, envKey: string)
    requires ConcurrencyKey(r) != ConcurrencyKey(s) && envKey !in {ConcurrencyKey(r), ConcurrencyKey(s)} && r.id != s.id
    ensures var ks := Admit(Admit(map[], s, envKey), r, envKey);
      && Stuck(ks, [s, r], envKey) == [s, r]
      && s.id in MembersOf(ks, ConcurrencyKey(s)) && r.id in MembersOf(ks, ConcurrencyKey(r))
  {
    hide ConcurrencyKey;
    var ks := Admit(Admit(map[], s, envKey), r, envKey);
    assert MembersOf(ks, envKey) == {s.id, r.id};
    hide Admit;
    assert [s, r][1..] == [r] && [r][1..] == [];
    assert Stuck(ks, [r], envKey) == [r] + Stuck(ks, [], envKey) == [r];
    assert Stuck(ks, [s, r], envKey) == [s] + Stuck(ks, [r], envKey) == [s, r];
  }

  /** Both runs started and nothing else in Redis: recovery need not converge. */
  lemma OrdinaryClash(org: string, project: string, env: string)
    ensures var r, s, envKey := Suffixed(org, project, env), Plain(org, project, env), EnvKey(org, project, env);
      var ks := Admit(Admit(map[], s, envKey), r, envKey);
      && Stuck(ks, [s, r], envKey) == [s, r]
      && s.id in MembersOf(ks, ConcurrencyKey(s)) && r.id in MembersOf(ks, ConcurrencyKey(r))
      && QueueKey(r) == ConcurrencyKey(s) && !AlwaysConverges(ks, [s, r], envKey)
  {
    hide QueueKey, EnvKey, ConcurrencyKey, Admit, Stuck, AlwaysConverges, Typed, MembersOf;
    var r, s, envKey := Suffixed(org, project, env), Plain(org, project, env), EnvKey(org, project, env);
    KeysOfBoth(org, project, env);
    BothStuck(r, s, envKey);
    assert r in [s, r] && s in [s, r];
    ConvergesExactly(Admit(Admit(map[], s, envKey), r, envKey), [s, r], envKey);
  }
}
