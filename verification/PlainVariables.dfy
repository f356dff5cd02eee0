/**
 When the variable store behaves like a plain map from keys to values: which `set` it refuses, and after
 which steps, and after which runs, reading it is reading the map.
 */
module PlainVariables {
  import opened Results
  import opened JsStrings
  import opened Secrets
  import opened SecretRuns
  import opened RootRetirement
  import opened EnvironmentVariables

  // ----- The states of a run ---------------------------------------------------------------------

  function Start(ring: KeyRing): System { System(NO_VARIABLES, ring) }

  ghost function StateFrom(y: System, run: seq<Step>, i: nat): (r: System)
    requires y.ring.Valid() && AdmissibleRun(y, run) && i <= |run|
    ensures r.ring.Valid()
    decreases i
  {
    if i == 0 then y else StateFrom(Next(y, run[0]), run[1..], i - 1)
  }

  /** The stores and the key ring after the first `i` steps. */
  ghost function StateAt(ring: KeyRing, run: seq<Step>, i: nat): (r: System)
    requires ring.Valid() && AdmissibleRun(Start(ring), run) && i <= |run|
    ensures r.ring.Valid()
  {
    StateFrom(Start(ring), run, i)
  }

  lemma {:induction false} StateRefinesFrom(y: System, spec: Spec, run: seq<Step>, i: nat)
    requires y.ring.Valid() && Refines(y.stores, y.ring, spec) && AdmissibleRun(y, run) && i <= |run|
    ensures Refines(StateFrom(y, run, i).stores, StateFrom(y, run, i).ring, RunSpec(spec, run[..i]))
    decreases i
  {
    hide Refines, Next, SpecNext, Admissible;
    if i > 0 {
      StepRefines(y, spec, run[0]);
      StateRefinesFrom(Next(y, run[0]), SpecNext(spec, run[0]), run[1..], i - 1);
      assert run[..i][0] == run[0] && run[..i][1..] == run[1..][..i - 1];
    }
  }

  lemma StateRefines(ring: KeyRing, run: seq<Step>, i: nat)
    requires ring.Valid() && AdmissibleRun(Start(ring), run) && i <= |run|
    ensures Refines(StateAt(ring, run, i).stores, StateAt(ring, run, i).ring, SpecAt(run, i))
  {
    hide Refines, Next, RunSpec, AdmissibleRun;
    NothingRefines(ring);
    StateRefinesFrom(Start(ring), NO_VALUES, run, i);
  }

  // ----- What `set` refuses ----------------------------------------------------------------------

  predicate IsSecretRow(s: Stores, k: VarKey) { k in s.vars && s.vars[k].kind == SECRET }

  /** The variable was secret at some earlier point of the run and is not secret now. */
  ghost predicate UsedUp(ring: KeyRing, run: seq<Step>, n: nat, k: VarKey)
    requires ring.Valid() && AdmissibleRun(Start(ring), run) && n <= |run|
  {
    && !IsSecretRow(StateAt(ring, run, n).stores, k)
    && exists i | 0 <= i < n :: IsSecretRow(StateAt(ring, run, i).stores, k)
  }

  lemma SecretRowAt(ring: KeyRing, run: seq<Step>, i: nat, k: VarKey)
    requires ring.Valid() && AdmissibleRun(Start(ring), run) && i <= |run|
    ensures IsSecretRow(StateAt(ring, run, i).stores, k) <==> SpecAt(run, i).IsSecret(k)
  {
    hide Refines, StateAt, SpecAt, AdmissibleRun;
    StateRefines(ring, run, i);
    EnvironmentVariables.SameKeys(StateAt(ring, run, i).stores, StateAt(ring, run, i).ring, SpecAt(run, i), k);
  }

  lemma UsedUpIsBurned(ring: KeyRing, run: seq<Step>, n: nat, k: VarKey)
    requires ring.Valid() && AdmissibleRun(Start(ring), run) && n <= |run|
    ensures UsedUp(ring, run, n, k) <==> k in SpecAt(run, n).burned
  {
    hide StateAt, SpecAt, AdmissibleRun, IsSecretRow;
    BurnedExactly(run, n, k);
    forall i | 0 <= i <= n ensures IsSecretRow(StateAt(ring, run, i).stores, k) <==> SpecAt(run, i).IsSecret(k) {
      SecretRowAt(ring, run, i, k);
    }
  }

  /**
   In every reachable state a permitted and valid `set` is refused exactly when it would make secret a
   variable that was secret earlier in the run and is not secret now.
   */
  lemma SetRefusedExactly(ring: KeyRing, run: seq<Step>, n: nat, auth: Authorization, keyInput: JsString,
                          value: JsString, secret: bool, c: Id, id: Id, now: Time)
    requires ring.Valid() && AdmissibleRun(Start(ring), run) && n <= |run|
    requires auth.MayMutate() && NormalizeInput(keyInput, value).Ok? && Fresh(StateAt(ring, run, n).stores.db, c, id)
    ensures var y, k := StateAt(ring, run, n), VarKey(auth.environmentId, NormalizeInput(keyInput, value).value);
      var r := Set(y.stores, y.ring, auth, keyInput, value, secret, c, id, now);
      (r.Err? <==> secret && UsedUp(ring, run, n, k)) && (r.Err? ==> r.error == UniqueViolation)
  {
    hide Refines, StateAt, SpecAt, AdmissibleRun, Set, UsedUp, NormalizeInput;
    var y, k := StateAt(ring, run, n), VarKey(auth.environmentId, NormalizeInput(keyInput, value).value);
    StateRefines(ring, run, n);
    SetRefines(y.stores, y.ring, SpecAt(run, n), auth, keyInput, value, secret, c, id, now);
    UsedUpIsBurned(ring, run, n, k);
  }

  // ----- The plain map ---------------------------------------------------------------------------

  type PlainMap = map<VarKey, JsString>

  /** What a map does with a step: permitted and valid writes take effect, everything else leaves it alone. */
  function PlainNext(m: PlainMap, step: Step): PlainMap
  {
    match step
    case SetVariable(auth, key, value, _, _, _, _) =>
      if auth.MayMutate() && NormalizeInput(key, value).Ok? then
        m[VarKey(auth.environmentId, NormalizeInput(key, value).value) := value]
      else m
    case DeleteVariable(auth, key, _) =>
      if auth.MayMutate() && NormalizeKey(key).Ok? then m - {VarKey(auth.environmentId, NormalizeKey(key).value)} else m
    case _ => m
  }

  function PlainAt(run: seq<Step>, i: nat): PlainMap
    requires i <= |run|
  {
    if i == 0 then map[] else PlainNext(PlainAt(run, i - 1), run[i - 1])
  }

  /** Reading any key of any environment gives what the map holds. */
  ghost predicate ReadsLike(y: System, m: PlainMap)
  {
    forall environmentId, key ::
      var r, k := ReadVariable(y.stores, y.ring, environmentId, key), VarKey(environmentId, key);
      if k in m then r.Ok? && r.value.value == m[k] else r == Err(VariableUnavailable)
  }

  function Texts(spec: Spec): PlainMap { map k | k in spec.values :: spec.values[k].text }

  lemma ReadsLikeExactly(y: System, spec: Spec, m: PlainMap)
    requires Refines(y.stores, y.ring, spec)
    ensures ReadsLike(y, m) <==> m == Texts(spec)
  {
    hide Refines, ReadVariable;
    forall k: VarKey
      ensures var r := ReadVariable(y.stores, y.ring, k.environmentId, k.key);
        if k in spec.values then r.Ok? && r.value.value == spec.values[k].text else r == Err(VariableUnavailable)
    {
      ReadRefines(y.stores, y.ring, spec, k.environmentId, k.key);
    }
    if ReadsLike(y, m) {
      forall k: VarKey ensures (k in m <==> k in spec.values) && (k in m ==> m[k] == spec.values[k].text) {
        assert k == VarKey(k.environmentId, k.key);
      }
    } else {
      var environmentId, key :|
        !(var r, k := ReadVariable(y.stores, y.ring, environmentId, key), VarKey(environmentId, key);
          if k in m then r.Ok? && r.value.value == m[k] else r == Err(VariableUnavailable));
      ReadRefines(y.stores, y.ring, spec, environmentId, key);
    }
  }

  /** A permitted, valid write of a secret. */
  predicate WritesSecret(step: Step)
  {
    step.SetVariable? && step.auth.MayMutate() && NormalizeInput(step.key, step.value).Ok? && step.secret
  }

  function Target(step: Step): VarKey
    requires WritesSecret(step)
  {
    VarKey(step.auth.environmentId, NormalizeInput(step.key, step.value).value)
  }

  /** The step does to reads what a map does: a secret is well-formed, or its refusal is not noticed. */
  predicate Harmless(m: PlainMap, step: Step, refused: bool)
  {
    WritesSecret(step) ==>
      if refused then Target(step) in m && m[Target(step)] == step.value else WellFormed(step.value)
  }

  lemma SpecStepIsPlain(spec: Spec, step: Step)
    ensures Texts(SpecNext(spec, step)) == PlainNext(Texts(spec), step) <==>
      Harmless(Texts(spec), step, WritesSecret(step) && Target(step) in spec.burned)
  {
    hide Trim, WellFormed, Utf8RoundTrip;
    if step.SetVariable? && step.auth.MayMutate() && NormalizeInput(step.key, step.value).Ok? {
      RoundTripIdentity(step.value);
      var k := VarKey(step.auth.environmentId, NormalizeInput(step.key, step.value).value);
      hide NormalizeInput;
      assert k in PlainNext(Texts(spec), step) && PlainNext(Texts(spec), step)[k] == step.value;
      if step.secret && k in spec.burned {
        assert SpecNext(spec, step) == spec;
        if k in spec.values && spec.values[k].text == step.value {
          assert Texts(spec) == PlainNext(Texts(spec), step);
        }
      } else {
        var text := Persisted(step.value, step.secret);
        assert Texts(SpecNext(spec, step)) == Texts(spec)[k := text];
        assert Texts(SpecNext(spec, step))[k] == text;
      }
    } else if step.DeleteVariable? && step.auth.MayMutate() && NormalizeKey(step.key).Ok? {
      var k := VarKey(step.auth.environmentId, NormalizeKey(step.key).value);
      hide NormalizeKey;
      assert Texts(SpecNext(spec, step)) == Texts(spec) - {k};
    }
  }

  /** The refusal that the store makes at this point of the run. */
  ghost predicate Refuses(ring: KeyRing, run: seq<Step>, n: nat)
    requires ring.Valid() && AdmissibleRun(Start(ring), run) && n < |run|
  {
    WritesSecret(run[n]) && UsedUp(ring, run, n, Target(run[n]))
  }

  /**
   Where reading the stores is reading a map, it still is after the next step of the run exactly when that
   step writes no secret, writes a well-formed one that is not refused, or is refused the value it would
   have replaced by itself.
   */
  lemma StepIsPlainExactly(ring: KeyRing, run: seq<Step>, n: nat, m: PlainMap)
    requires ring.Valid() && AdmissibleRun(Start(ring), run) && n < |run|
    requires ReadsLike(StateAt(ring, run, n), m)
    ensures ReadsLike(StateAt(ring, run, n + 1), PlainNext(m, run[n])) <==> Harmless(m, run[n], Refuses(ring, run, n))
  {
    hide Refines, StateAt, SpecAt, AdmissibleRun, ReadsLike, PlainNext, UsedUp, SpecNext, Harmless;
    StateRefines(ring, run, n);
    StateRefines(ring, run, n + 1);
    ReadsLikeExactly(StateAt(ring, run, n), SpecAt(run, n), m);
    ReadsLikeExactly(StateAt(ring, run, n + 1), SpecAt(run, n + 1), PlainNext(m, run[n]));
    SpecAtNext(run, n);
    SpecStepIsPlain(SpecAt(run, n), run[n]);
    if WritesSecret(run[n]) { UsedUpIsBurned(ring, run, n, Target(run[n])); }
  }

  /** The store reads like a map throughout a run exactly when every step of it is harmless. */
  lemma RunIsPlainExactly(ring: KeyRing, run: seq<Step>)
    requires ring.Valid() && AdmissibleRun(Start(ring), run)
    ensures (forall i | 0 <= i <= |run| :: ReadsLike(StateAt(ring, run, i), PlainAt(run, i))) <==>
      (forall i | 0 <= i < |run| :: Harmless(PlainAt(run, i), run[i], Refuses(ring, run, i)))
  {
    hide StateAt, AdmissibleRun, ReadsLike, Harmless, Refuses, PlainNext;
    if forall i | 0 <= i <= |run| :: ReadsLike(StateAt(ring, run, i), PlainAt(run, i)) {
      forall i | 0 <= i < |run| ensures Harmless(PlainAt(run, i), run[i], Refuses(ring, run, i)) {
        assert ReadsLike(StateAt(ring, run, i), PlainAt(run, i))
          && ReadsLike(StateAt(ring, run, i + 1), PlainAt(run, i + 1));
        StepIsPlainExactly(ring, run, i, PlainAt(run, i));
      }
    } else if forall i | 0 <= i < |run| :: Harmless(PlainAt(run, i), run[i], Refuses(ring, run, i)) {
      forall i | 0 <= i <= |run| ensures ReadsLike(StateAt(ring, run, i), PlainAt(run, i)) {
        HarmlessRun(ring, run, i);
      }
    }
  }

  lemma {:induction false} HarmlessRun(ring: KeyRing, run: seq<Step>, n: nat)
    requires ring.Valid() && AdmissibleRun(Start(ring), run) && n <= |run|
    requires forall i | 0 <= i < |run| :: Harmless(PlainAt(run, i), run[i], Refuses(ring, run, i))
    ensures ReadsLike(StateAt(ring, run, n), PlainAt(run, n))
    decreases n
  {
    hide StateAt, AdmissibleRun, ReadsLike, Harmless, Refuses, PlainNext, Refines, SpecAt;
    if n == 0 {
      StateRefines(ring, run, 0);
      ReadsLikeExactly(StateAt(ring, run, 0), SpecAt(run, 0), map[]);
      EmptySpec(run);
    } else {
      HarmlessRun(ring, run, n - 1);
      StepIsPlainExactly(ring, run, n - 1, PlainAt(run, n - 1));
    }
  }
}
