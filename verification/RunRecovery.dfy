/**
 Recovery of stuck runs: runs that Redis counts as executing although the database has them queued
 are put back on their queues and taken out of the concurrency sets, one command at a time.

 Any command may fail: because its key holds the other kind of value, or because the connection is
 lost. A pass is described by how many commands each run gets before its connection fails.
 */
module RunRecovery {
  import opened Results

  // ----- Redis -----------------------------------------------------------------------------------

  datatype Value = Scores(scores: map<string, int>) | Members(runs: set<string>)

  type Keyspace = map<string, Value>

  datatype Command = ZAdd(key: string, score: int, run: string) | SRem(key: string, run: string)

  /** Nothing is returned for a key of the wrong type; an emptied set disappears. */
  function Exec(ks: Keyspace, c: Command): Option<Keyspace>
  {
    match c
    case ZAdd(key, score, run) =>
      if key !in ks then Some(ks[key := Scores(map[run := score])])
      else if ks[key].Members? then None
      else Some(ks[key := Scores(ks[key].scores[run := score])])
    case SRem(key, run) =>
      if key !in ks then Some(ks)
      else if ks[key].Scores? then None
      else
        var left := ks[key].runs - {run};
        Some(if left == {} then ks - {key} else ks[key := Members(left)])
  }

  function MembersOf(ks: Keyspace, key: string): set<string>
  {
    if key in ks && ks[key].Members? then ks[key].runs else {}
  }

  function ScoresOf(ks: Keyspace, key: string): map<string, int>
  {
    if key in ks && ks[key].Scores? then ks[key].scores else map[]
  }

  predicate Queued(ks: Keyspace, key: string, run: string) { run in ScoresOf(ks, key) }

  // ----- Runs and their keys ---------------------------------------------------------------------

  datatype Run = Run(id: string, org: string, project: string, env: string, queue: string,
                     concurrencyKey: Option<string>)

  const SUFFIX := ":currentConcurrency"

  function EnvPrefix(org: string, project: string, env: string): string
  {
    "engine:runqueue:{org:" + org + "}:proj:" + project + ":env:" + env
  }

  function EnvKey(org: string, project: string, env: string): string { EnvPrefix(org, project, env) + SUFFIX }

  /** An empty concurrency key counts as none. */
  function QueueKey(r: Run): string
  {
    var queue := EnvPrefix(r.org, r.project, r.env) + ":queue:" + r.queue;
    if r.concurrencyKey.Some? && r.concurrencyKey.value != "" then queue + ":ck:" + r.concurrencyKey.value else queue
  }

  function ConcurrencyKey(r: Run): string { QueueKey(r) + SUFFIX }

  predicate Distinct(runs: seq<Run>) { forall i, j | 0 <= i < j < |runs| :: runs[i].id != runs[j].id }

  /** The runs the database has queued, restricted to those in the environment's set. */
  function Stuck(ks: Keyspace, database: seq<Run>, envKey: string): seq<Run>
  {
    if database == [] then []
    else (if database[0].id in MembersOf(ks, envKey) then [database[0]] else []) + Stuck(ks, database[1..], envKey)
  }

  // ----- One pass --------------------------------------------------------------------------------

  function Commands(r: Run, envKey: string, now: int): seq<Command>
  {
    [ZAdd(QueueKey(r), now, r.id), SRem(ConcurrencyKey(r), r.id), SRem(envKey, r.id)]
  }

  /** At most `cap` commands, stopping at the first that fails. */
  function ExecAll(ks: Keyspace, commands: seq<Command>, cap: nat): Keyspace
    decreases commands
  {
    if commands == [] || cap == 0 then ks else
    var next := Exec(ks, commands[0]);
    if next.None? then ks else ExecAll(next.value, commands[1..], cap - 1)
  }

  type Caps = string -> nat

  function RecoverRun(ks: Keyspace, r: Run, envKey: string, now: int, caps: Caps): Keyspace
  {
    ExecAll(ks, Commands(r, envKey, now), caps(r.id))
  }

  function RecoverAll(ks: Keyspace, runs: seq<Run>, envKey: string, now: int, caps: Caps): Keyspace
    decreases runs
  {
    if runs == [] then ks else RecoverAll(RecoverRun(ks, runs[0], envKey, now, caps), runs[1..], envKey, now, caps)
  }

  function Pass(ks: Keyspace, database: seq<Run>, envKey: string, now: int, caps: Caps): Keyspace
  {
    RecoverAll(ks, Stuck(ks, database, envKey), envKey, now, caps)
  }

  const UNLIMITED: Caps := _ => 3

  // ----- Commands concern their own run only -----------------------------------------------------

  lemma ExecOthers(ks: Keyspace, c: Command, key: string, run: string)
    requires Exec(ks, c).Some? && run != c.run
    ensures var ks' := Exec(ks, c).value;
      && (run in MembersOf(ks', key) <==> run in MembersOf(ks, key))
      && (Queued(ks', key, run) <==> Queued(ks, key, run))
      && (Queued(ks, key, run) ==> ScoresOf(ks', key)[run] == ScoresOf(ks, key)[run])
  {
  }

  lemma {:induction false} ExecAllOthers(ks: Keyspace, commands: seq<Command>, cap: nat, key: string, run: string)
    requires forall i | 0 <= i < |commands| :: commands[i].run != run
    ensures var ks' := ExecAll(ks, commands, cap);
      && (run in MembersOf(ks', key) <==> run in MembersOf(ks, key))
      && (Queued(ks', key, run) <==> Queued(ks, key, run))
      && (Queued(ks, key, run) ==> ScoresOf(ks', key)[run] == ScoresOf(ks, key)[run])
    decreases commands
  {
    hide Exec, MembersOf, ScoresOf;
    if commands != [] && cap > 0 && Exec(ks, commands[0]).Some? {
      ExecOthers(ks, commands[0], key, run);
      ExecAllOthers(Exec(ks, commands[0]).value, commands[1..], cap - 1, key, run);
    }
  }

  /** A run that is not among those recovered is left where it was, with its score. */
  lemma {:induction false} OthersUntouched(ks: Keyspace, runs: seq<Run>, envKey: string, now: int, caps: Caps,
                                           key: string, run: string)
    requires forall i | 0 <= i < |runs| :: runs[i].id != run
    ensures var ks' := RecoverAll(ks, runs, envKey, now, caps);
      && (run in MembersOf(ks', key) <==> run in MembersOf(ks, key))
      && (Queued(ks', key, run) <==> Queued(ks, key, run))
      && (Queued(ks, key, run) ==> ScoresOf(ks', key)[run] == ScoresOf(ks, key)[run])
    decreases runs
  {
    hide ExecAll, MembersOf, ScoresOf;
    if runs != [] {
      ExecAllOthers(ks, Commands(runs[0], envKey, now), caps(runs[0].id), key, run);
      OthersUntouched(RecoverRun(ks, runs[0], envKey, now, caps), runs[1..], envKey, now, caps, key, run);
    }
  }

  lemma {:induction false} StuckIs(ks: Keyspace, database: seq<Run>, envKey: string, r: Run)
    ensures r in Stuck(ks, database, envKey) <==> r in database && r.id in MembersOf(ks, envKey)
    ensures Distinct(database) ==> Distinct(Stuck(ks, database, envKey))
    decreases database
  {
    if database != [] {
      StuckIs(ks, database[1..], envKey, r);
      assert r in database <==> r == database[0] || r in database[1..];
      if Distinct(database) {
        var rest := Stuck(ks, database[1..], envKey);
        forall i | 0 <= i < |rest| ensures rest[i].id != database[0].id {
          StuckIs(ks, database[1..], envKey, rest[i]);
          assert rest[i] in database[1..];
        }
      }
    }
  }

  /** Runs that were not stuck keep every membership and score, in every set and queue. */
  lemma NotStuckUntouched(ks: Keyspace, database: seq<Run>, envKey: string, now: int, caps: Caps, key: string,
                          run: string)
    requires forall r | r in database && r.id in MembersOf(ks, envKey) :: r.id != run
    ensures var ks' := Pass(ks, database, envKey, now, caps);
      && (run in MembersOf(ks', key) <==> run in MembersOf(ks, key))
      && (Queued(ks', key, run) <==> Queued(ks, key, run))
      && (Queued(ks, key, run) ==> ScoresOf(ks', key)[run] == ScoresOf(ks, key)[run])
  {
    hide RecoverAll, MembersOf, ScoresOf;
    var stuck := Stuck(ks, database, envKey);
    forall i | 0 <= i < |stuck| ensures stuck[i].id != run { StuckIs(ks, database, envKey, stuck[i]); }
    OthersUntouched(ks, stuck, envKey, now, caps, key, run);
  }

  // ----- No run is lost --------------------------------------------------------------------------

  /** A run is on its queue, or still found by the next pass. */
  predicate Safe(ks: Keyspace, r: Run, envKey: string)
  {
    Queued(ks, QueueKey(r), r.id) || r.id in MembersOf(ks, envKey)
  }

  lemma OwnRunSafe(ks: Keyspace, r: Run, envKey: string, now: int, cap: nat)
    requires Safe(ks, r, envKey)
    ensures Safe(ExecAll(ks, Commands(r, envKey, now), cap), r, envKey)
  {
    hide QueueKey, EnvPrefix;
    var cs := Commands(r, envKey, now);
    assert cs[1..] == [SRem(ConcurrencyKey(r), r.id), SRem(envKey, r.id)] && cs[1..][1..] == [SRem(envKey, r.id)];
    var ks1 := Exec(ks, cs[0]);
    if cap > 0 && ks1.Some? {
      assert Queued(ks1.value, QueueKey(r), r.id);
      StaysQueued(ks1.value, cs[1..], cap - 1, QueueKey(r), r.id);
    }
  }

  lemma StepStaysQueued(ks: Keyspace, c: Command, key: string, run: string)
    requires Queued(ks, key, run) && Exec(ks, c).Some?
    ensures Queued(Exec(ks, c).value, key, run)
  {
  }

  lemma {:induction false} StaysQueued(ks: Keyspace, commands: seq<Command>, cap: nat, key: string, run: string)
    requires Queued(ks, key, run)
    ensures Queued(ExecAll(ks, commands, cap), key, run)
    decreases commands
  {
    if commands != [] && cap > 0 && Exec(ks, commands[0]).Some? {
      StepStaysQueued(ks, commands[0], key, run);
      StaysQueued(Exec(ks, commands[0]).value, commands[1..], cap - 1, key, run);
    }
  }

  lemma {:induction false} RecoverAllSafe(ks: Keyspace, runs: seq<Run>, envKey: string, now: int, caps: Caps, r: Run)
    requires Safe(ks, r, envKey) && (r in runs || forall s | s in runs :: s.id != r.id) && Distinct(runs)
    ensures Safe(RecoverAll(ks, runs, envKey, now, caps), r, envKey)
    decreases runs
  {
    hide ExecAll, MembersOf, ScoresOf, QueueKey;
    if runs != [] {
      var next := RecoverRun(ks, runs[0], envKey, now, caps);
      if runs[0] == r {
        OwnRunSafe(ks, r, envKey, now, caps(r.id));
      } else {
        assert runs[0] in runs;
        if r in runs { var i :| 0 < i < |runs| && runs[i] == r; }
        ExecAllOthers(ks, Commands(runs[0], envKey, now), caps(runs[0].id), QueueKey(r), r.id);
        ExecAllOthers(ks, Commands(runs[0], envKey, now), caps(runs[0].id), envKey, r.id);
      }
      forall s | s in runs[1..] && r !in runs[1..] ensures s.id != r.id {
        assert s in runs;
        if runs[0] == r { var i :| 0 < i < |runs| && runs[i] == s; }
      }
      RecoverAllSafe(next, runs[1..], envKey, now, caps, r);
    }
  }

  /** A pass that may stop after any of its commands, and any number of them one after another. */
  datatype Attempt = Attempt(now: int, caps: Caps)

  function Passes(ks: Keyspace, database: seq<Run>, envKey: string, attempts: seq<Attempt>): Keyspace
    decreases attempts
  {
    if attempts == [] then ks
    else Passes(Pass(ks, database, envKey, attempts[0].now, attempts[0].caps), database, envKey, attempts[1..])
  }

  lemma PassSafe(ks: Keyspace, database: seq<Run>, envKey: string, now: int, caps: Caps, r: Run)
    requires r in database && Distinct(database) && Safe(ks, r, envKey)
    ensures Safe(Pass(ks, database, envKey, now, caps), r, envKey)
  {
    hide RecoverAll, MembersOf, ScoresOf, QueueKey;
    var stuck := Stuck(ks, database, envKey);
    StuckIs(ks, database, envKey, r);
    if r !in stuck {
      forall s | s in stuck ensures s.id != r.id { StuckIs(ks, database, envKey, s); }
    }
    RecoverAllSafe(ks, stuck, envKey, now, caps, r);
  }

  /**
   No stuck run is lost: whatever the keyspace holds and wherever passes are interrupted, a run that
   was stuck is on its queue or still discoverable in the environment's set.
   */
  lemma {:induction false} NoRunIsLost(ks: Keyspace, database: seq<Run>, envKey: string, attempts: seq<Attempt>, r: Run)
    requires r in database && Distinct(database) && Safe(ks, r, envKey)
    ensures Safe(Passes(ks, database, envKey, attempts), r, envKey)
    decreases attempts
  {
    hide Pass, Safe;
    if attempts != [] {
      PassSafe(ks, database, envKey, attempts[0].now, attempts[0].caps, r);
      NoRunIsLost(Pass(ks, database, envKey, attempts[0].now, attempts[0].caps), database, envKey, attempts[1..], r);
    }
  }

  // ----- The script ------------------------------------------------------------------------------

  class RecoveryScript {
    var ks: Keyspace

    constructor (ks: Keyspace)
      ensures this.ks == ks
    {
      this.ks := ks;
    }

    method Send(c: Command) returns (ok: bool)
      modifies this
      ensures ok <==> Exec(old(ks), c).Some?
      ensures ks == if ok then Exec(old(ks), c).value else old(ks)
    {
      var next := Exec(ks, c);
      ok := next.Some?;
      if ok { ks := next.value; }
    }

    /** Sends a run's commands until one fails; `cap` is how many the connection lets through. */
    method Recover(r: Run, envKey: string, now: int, cap: nat) returns (ok: bool)
      modifies this
      ensures ks == ExecAll(old(ks), Commands(r, envKey, now), cap)
      ensures ok ==> cap >= 3 && Queued(ks, QueueKey(r), r.id)
    {
      hide QueueKey, Exec;
      var commands := Commands(r, envKey, now);
      var i := 0;
      while i < 3
        invariant 0 <= i <= 3 && i <= cap
        invariant ExecAll(ks, commands[i..], cap - i) == ExecAll(old(ks), commands, cap)
        invariant i > 0 ==> Queued(ks, QueueKey(r), r.id)
      {
        if i == cap { return false; }
        assert commands[i..][1..] == commands[i + 1..];
        ghost var before := ks;
        ok := Send(commands[i]);
        if !ok { return false; }
        if i > 0 { StepStaysQueued(before, commands[i], QueueKey(r), r.id); }
          else { AddedIsQueued(before, commands[0]); }
        i := i + 1;
      }
      return true;
    }

    /** One pass over the stuck runs; a failure is counted and the next run is tried. */
    method RecoverStuck(database: seq<Run>, envKey: string, now: int, caps: Caps) returns (succeeded: nat, failed: nat)
      modifies this
      ensures ks == Pass(old(ks), database, envKey, now, caps)
      ensures succeeded + failed == |Stuck(old(ks), database, envKey)|
    {
      hide ExecAll;
      succeeded, failed := 0, 0;
      var stuck := Stuck(ks, database, envKey);
      for i := 0 to |stuck|
        invariant RecoverAll(ks, stuck[i..], envKey, now, caps) == Pass(old(ks), database, envKey, now, caps)
        invariant succeeded + failed == i
      {
        assert stuck[i..][0] == stuck[i] && stuck[i..][1..] == stuck[i + 1..];
        var ok := Recover(stuck[i], envKey, now, caps(stuck[i].id));
        if ok { succeeded := succeeded + 1; } else { failed := failed + 1; }
      }
    }
  }

  lemma AddedIsQueued(ks: Keyspace, c: Command)
    requires c.ZAdd? && Exec(ks, c).Some?
    ensures Queued(Exec(ks, c).value, c.key, c.run)
  {
  }
}
