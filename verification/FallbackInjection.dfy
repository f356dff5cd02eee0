/**
 Default filters for analytics queries: a fallback condition is added to the WHERE clause of every
 SELECT branch that does not already filter on its column.

 Conditions have three truth values. What a comparison, a call or any other non-logical node means
 on a row is a parameter, and so is what a query makes of the rows it keeps.
 */
module FallbackInjection {
  import opened Results

  datatype Part = Name(name: string) | Index(index: int)

  datatype Literal =
    | Text(text: string)
    | Number(number: real)
    | DateText(millis: int)
    | Boolean(value: bool)
    | NullLiteral

  datatype CompareOp = Eq | NotEq | Gt | GtEq | Lt | LtEq | In | OtherOp(op: string)

  datatype Expr =
    | And(exprs: seq<Expr>)
    | Or(exprs: seq<Expr>)
    | Not(expr: Expr)
    | Compare(left: Expr, right: Expr, op: CompareOp)
    | Between(expr: Expr, low: Expr, high: Expr, negated: bool)
    | Field(chain: seq<Part>)
    | Constant(literal: Literal)
    | Call(name: string, args: seq<Expr>)
    | Tuple(exprs: seq<Expr>)
    | Other(kind: string, parts: seq<Expr>)

  // ----- Detection -------------------------------------------------------------------------------

  /** `isColumnReferencedInExpression` */
  predicate Referenced(e: Expr, column: string)
  {
    match e
    case And(exprs) => exists i | 0 <= i < |exprs| :: Referenced(exprs[i], column)
    case Or(exprs) => exists i | 0 <= i < |exprs| :: Referenced(exprs[i], column)
    case Not(expr) => Referenced(expr, column)
    case Compare(left, right, _) => Referenced(left, column) || Referenced(right, column)
    case Between(expr, _, _, _) => Referenced(expr, column)
    case Field(chain) => Name(column) in chain
    case _ => false
  }

  predicate Detected(where: Option<Expr>, column: string) { where.Some? && Referenced(where.value, column) }

  // ----- Fallbacks -------------------------------------------------------------------------------

  datatype Value = Date(millis: int) | Plain(literal: Literal)

  datatype Condition =
    | BetweenValues(low: Value, high: Value)
    | InValues(values: seq<Value>)
    | Simple(op: CompareOp, value: Value)

  type Fallbacks = seq<(string, Condition)>

  function ValueExpr(v: Value): Expr
  {
    match v
    case Date(millis) => Call("toDateTime64", [Constant(DateText(millis)), Constant(Number(3.0))])
    case Plain(literal) => Constant(literal)
  }

  function FallbackExpr(column: string, c: Condition): Expr
  {
    var field := Field([Name(column)]);
    match c
    case BetweenValues(low, high) => Between(field, ValueExpr(low), ValueExpr(high), false)
    case InValues(values) =>
      Compare(field, Tuple(seq(|values|, i requires 0 <= i < |values| => ValueExpr(values[i]))), In)
    case Simple(op, value) => Compare(field, ValueExpr(value), op)
  }

  /** The fallbacks for the columns a WHERE clause is not detected to filter on. */
  function Missing(where: Option<Expr>, fallbacks: Fallbacks): seq<Expr>
  {
    if fallbacks == [] then []
    else (if Detected(where, fallbacks[0].0) then [] else [FallbackExpr(fallbacks[0].0, fallbacks[0].1)])
         + Missing(where, fallbacks[1..])
  }

  // ----- Queries ---------------------------------------------------------------------------------

  /** Everything about a SELECT but its WHERE clause is kept as it is. */
  type Clauses = nat

  datatype Query =
    | Select(where: Option<Expr>, clauses: Clauses)
    | SetQuery(initial: Query, subsequent: seq<Branch>)

  datatype Branch = Branch(operator: string, query: Query)

  function NewWhere(where: Option<Expr>, missing: seq<Expr>): Option<Expr>
  {
    if missing == [] then where
    else if where.Some? then Some(And(missing + [where.value]))
    else if |missing| == 1 then Some(missing[0])
    else Some(And(missing))
  }

  /** `injectFallbackConditions` */
  function Inject(q: Query, fallbacks: Fallbacks): Query
  {
    match q
    case Select(where, clauses) => Select(NewWhere(where, Missing(where, fallbacks)), clauses)
    case SetQuery(initial, subsequent) =>
      SetQuery(Inject(initial, fallbacks),
               seq(|subsequent|, i requires 0 <= i < |subsequent| =>
                   Branch(subsequent[i].operator, Inject(subsequent[i].query, fallbacks))))
  }

  lemma MissingNext(where: Option<Expr>, fallbacks: Fallbacks, i: nat, missing: seq<Expr>)
    requires i < |fallbacks| && missing + Missing(where, fallbacks[i..]) == Missing(where, fallbacks)
    ensures var one := FallbackExpr(fallbacks[i].0, fallbacks[i].1);
      (if Detected(where, fallbacks[i].0) then missing else missing + [one]) + Missing(where, fallbacks[i + 1..])
      == Missing(where, fallbacks)
  {
    hide Detected, FallbackExpr;
    assert fallbacks[i..][0] == fallbacks[i] && fallbacks[i..][1..] == fallbacks[i + 1..];
  }

  lemma MissingNone(where: Option<Expr>, fallbacks: Fallbacks)
    requires fallbacks == []
    ensures Missing(where, fallbacks) == []
  {
  }

  /** The loop that collects the missing conditions. */
  method CollectMissing(where: Option<Expr>, fallbacks: Fallbacks) returns (missing: seq<Expr>)
    ensures missing == Missing(where, fallbacks)
  {
    hide Detected, FallbackExpr, Missing;
    missing := [];
    assert fallbacks[0..] == fallbacks;
    for i := 0 to |fallbacks|
      invariant missing + Missing(where, fallbacks[i..]) == Missing(where, fallbacks)
    {
      MissingNext(where, fallbacks, i, missing);
      if !Detected(where, fallbacks[i].0) {
        missing := missing + [FallbackExpr(fallbacks[i].0, fallbacks[i].1)];
      }
    }
    MissingNone(where, fallbacks[|fallbacks|..]);
  }

  // ----- What a query means ----------------------------------------------------------------------

  datatype Truth = True | False | Unknown

  type Row = nat

  type Table = seq<Row>

  function Both(a: Truth, b: Truth): Truth
  {
    if a.False? || b.False? then False else if a.True? && b.True? then True else Unknown
  }

  function Either(a: Truth, b: Truth): Truth
  {
    if a.True? || b.True? then True else if a.False? && b.False? then False else Unknown
  }

  function Negate(a: Truth): Truth { match a case True => False case False => True case Unknown => Unknown }

  type Atoms = (Row, Expr) -> Truth

  function Eval(e: Expr, row: Row, atoms: Atoms): Truth
    decreases e
  {
    match e
    case And(exprs) => All(exprs, row, atoms)
    case Or(exprs) => Any(exprs, row, atoms)
    case Not(expr) => Negate(Eval(expr, row, atoms))
    case _ => atoms(row, e)
  }

  function All(es: seq<Expr>, row: Row, atoms: Atoms): Truth
    decreases es
  {
    if es == [] then True else Both(Eval(es[0], row, atoms), All(es[1..], row, atoms))
  }

  function Any(es: seq<Expr>, row: Row, atoms: Atoms): Truth
    decreases es
  {
    if es == [] then False else Either(Eval(es[0], row, atoms), Any(es[1..], row, atoms))
  }

  /** A SELECT keeps the rows on which its WHERE clause is true. */
  predicate Keeps(where: Option<Expr>, row: Row, atoms: Atoms) { where.Some? ==> Eval(where.value, row, atoms).True? }

  /** Where rows come from, what becomes of the rows that are kept, and how set operators combine. */
  datatype Engine = Engine(
    atoms: Atoms, rows: Clauses -> set<Row>, finish: (Clauses, set<Row>) -> Table,
      combine: (string, Table, Table) -> Table)

  function Denote(q: Query, engine: Engine): Table
    decreases q
  {
    match q
    case Select(where, clauses) =>
      engine.finish(clauses, set r | r in engine.rows(clauses) && Keeps(where, r, engine.atoms))
    case SetQuery(initial, subsequent) => Combine(Denote(initial, engine), subsequent, engine)
  }

  function Combine(first: Table, rest: seq<Branch>, engine: Engine): Table
    decreases rest
  {
    if rest == [] then first
    else Combine(engine.combine(rest[0].operator, first, Denote(rest[0].query, engine)), rest[1..], engine)
  }

  /** Every fallback on a column without a detected filter is true of the row. */
  predicate Meets(where: Option<Expr>, fallbacks: Fallbacks, row: Row, atoms: Atoms)
  {
    forall i | 0 <= i < |fallbacks| && !Detected(where, fallbacks[i].0) ::
      atoms(row, FallbackExpr(fallbacks[i].0, fallbacks[i].1)).True?
  }

  /** The reference meaning: each branch of the original query, further restricted to the rows that meet the
      fallbacks. */
  function Restricted(q: Query, fallbacks: Fallbacks, engine: Engine): Table
    decreases q
  {
    match q
    case Select(where, clauses) =>
      engine.finish(clauses, set r | r in engine.rows(clauses) && Keeps(where, r, engine.atoms)
          && Meets(where, fallbacks, r, engine.atoms))
    case SetQuery(initial, subsequent) =>
      CombineRestricted(Restricted(initial, fallbacks, engine), subsequent, fallbacks, engine)
  }

  function CombineRestricted(first: Table, rest: seq<Branch>, fallbacks: Fallbacks, engine: Engine): Table
    decreases rest
  {
    if rest == [] then first
    else CombineRestricted(engine.combine(rest[0].operator, first, Restricted(rest[0].query, fallbacks, engine)),
                           rest[1..], fallbacks, engine)
  }

  // ----- Injection preserves meaning -------------------------------------------------------------

  lemma {:induction false} AllAppends(es: seq<Expr>, e: Expr, row: Row, atoms: Atoms)
    ensures All(es + [e], row, atoms).True? <==> All(es, row, atoms).True? && Eval(e, row, atoms).True?
  {
    if es != [] {
      AllAppends(es[1..], e, row, atoms);
      assert (es + [e])[1..] == es[1..] + [e];
    }
  }

  lemma FallbackIsAtom(column: string, c: Condition, row: Row, atoms: Atoms)
    ensures Eval(FallbackExpr(column, c), row, atoms) == atoms(row, FallbackExpr(column, c))
  {
  }

  /** The missing conditions are all true exactly on the rows that meet the fallbacks. */
  lemma {:induction false} MissingMeans(where: Option<Expr>, fallbacks: Fallbacks, row: Row, atoms: Atoms)
    ensures All(Missing(where, fallbacks), row, atoms).True? <==> Meets(where, fallbacks, row, atoms)
    decreases fallbacks
  {
    hide Referenced, FallbackExpr;
    if fallbacks != [] {
      MissingMeans(where, fallbacks[1..], row, atoms);
      var head := FallbackExpr(fallbacks[0].0, fallbacks[0].1);
      FallbackIsAtom(fallbacks[0].0, fallbacks[0].1, row, atoms);
      var rest := Missing(where, fallbacks[1..]);
      assert ([head] + rest)[1..] == rest && [] + rest == rest;
      assert forall i | 0 <= i < |fallbacks| - 1 :: fallbacks[1..][i] == fallbacks[i + 1];
      assert Meets(where, fallbacks, row, atoms) <==>
        (Detected(where, fallbacks[0].0) || atoms(row, head).True?) && Meets(where, fallbacks[1..], row, atoms) by {
        MeetsSplits(where, fallbacks, row, atoms);
      }
    }
  }

  lemma MeetsSplits(where: Option<Expr>, fallbacks: Fallbacks, row: Row, atoms: Atoms)
    requires fallbacks != []
    ensures Meets(where, fallbacks, row, atoms) <==>
      (Detected(where, fallbacks[0].0) || atoms(row, FallbackExpr(fallbacks[0].0, fallbacks[0].1)).True?)
        && Meets(where, fallbacks[1..], row, atoms)
  {
    hide Referenced, FallbackExpr;
    var rest := fallbacks[1..];
    assert forall i | 1 <= i < |fallbacks| :: fallbacks[i] == rest[i - 1];
  }

  /**
   In three-valued logic a SELECT branch keeps a row after injection exactly when it kept it before
   and every fallback on a column without a detected filter is true.
   */
  lemma BranchMeans(where: Option<Expr>, fallbacks: Fallbacks, row: Row, atoms: Atoms)
    ensures Keeps(NewWhere(where, Missing(where, fallbacks)), row, atoms) <==>
      Keeps(where, row, atoms) && Meets(where, fallbacks, row, atoms)
  {
    hide Meets, Missing;
    var missing := Missing(where, fallbacks);
    MissingMeans(where, fallbacks, row, atoms);
    if where.Some? {
      AllAppends(missing, where.value, row, atoms);
    } else if |missing| == 1 {
      assert missing[1..] == [];
    }
  }

  /** A query with injected fallbacks means what the original means on the rows that meet them, set
      operators included. */
  lemma {:induction false} InjectPreservesMeaning(q: Query, fallbacks: Fallbacks, engine: Engine)
    ensures Denote(Inject(q, fallbacks), engine) == Restricted(q, fallbacks, engine)
    decreases q
  {
    match q
    case Select(where, clauses) =>
      var where' := NewWhere(where, Missing(where, fallbacks));
      forall r ensures Keeps(where', r, engine.atoms) <==>
        Keeps(where, r, engine.atoms) && Meets(where, fallbacks, r, engine.atoms) {
        BranchMeans(where, fallbacks, r, engine.atoms);
      }
      hide Keeps, Meets;
      assert (set r | r in engine.rows(clauses) && Keeps(where', r, engine.atoms))
        == (set r | r in engine.rows(clauses) && Keeps(where, r, engine.atoms)
            && Meets(where, fallbacks, r, engine.atoms));
    case SetQuery(initial, subsequent) =>
      InjectPreservesMeaning(initial, fallbacks, engine);
      CombinePreserves(Restricted(initial, fallbacks, engine), subsequent, Inject(q, fallbacks).subsequent, fallbacks,
                       engine);
  }

  lemma {:induction false} CombinePreserves(first: Table, rest: seq<Branch>, injected: seq<Branch>,
                                            fallbacks: Fallbacks, engine: Engine)
    requires |injected| == |rest|
    requires forall i | 0 <= i < |rest| :: injected[i] == Branch(rest[i].operator, Inject(rest[i].query, fallbacks))
    ensures Combine(first, injected, engine) == CombineRestricted(first, rest, fallbacks, engine)
    decreases rest
  {
    if rest != [] {
      InjectPreservesMeaning(rest[0].query, fallbacks, engine);
      CombinePreserves(engine.combine(rest[0].operator, first, Restricted(rest[0].query, fallbacks, engine)),
                       rest[1..], injected[1..], fallbacks, engine);
    }
  }

  // ----- Injecting twice -------------------------------------------------------------------------

  lemma FallbackRefersTo(column: string, c: Condition)
    ensures Referenced(FallbackExpr(column, c), column)
  {
  }

  lemma {:induction false} MissingRefersTo(where: Option<Expr>, fallbacks: Fallbacks, i: nat)
    requires i < |fallbacks| && !Detected(where, fallbacks[i].0)
    ensures exists k | 0 <= k < |Missing(where, fallbacks)| :: Referenced(Missing(where, fallbacks)[k], fallbacks[i].0)
    decreases fallbacks
  {
    hide Referenced, FallbackExpr;
    var missing, rest := Missing(where, fallbacks), Missing(where, fallbacks[1..]);
    if i == 0 {
      FallbackRefersTo(fallbacks[0].0, fallbacks[0].1);
      assert missing[0] == FallbackExpr(fallbacks[0].0, fallbacks[0].1);
    } else {
      MissingRefersTo(where, fallbacks[1..], i - 1);
      assert fallbacks[1..][i - 1] == fallbacks[i];
      var k :| 0 <= k < |rest| && Referenced(rest[k], fallbacks[i].0);
      assert missing[|missing| - |rest| + k] == rest[k];
    }
  }

  lemma NowDetected(where: Option<Expr>, fallbacks: Fallbacks, i: nat)
    requires i < |fallbacks|
    ensures Detected(NewWhere(where, Missing(where, fallbacks)), fallbacks[i].0)
  {
    var missing, column := Missing(where, fallbacks), fallbacks[i].0;
    if !Detected(where, column) {
      MissingRefersTo(where, fallbacks, i);
      hide Missing;
      var k :| 0 <= k < |missing| && Referenced(missing[k], column);
      if where.Some? { assert (missing + [where.value])[k] == missing[k]; }
    } else {
      hide Missing;
      assert (missing + [where.value])[|missing|] == where.value;
    }
  }

  lemma {:induction false} NothingMissing(where: Option<Expr>, fallbacks: Fallbacks)
    requires forall i | 0 <= i < |fallbacks| :: Detected(where, fallbacks[i].0)
    ensures Missing(where, fallbacks) == []
    decreases fallbacks
  {
    hide Referenced;
    if fallbacks != [] { NothingMissing(where, fallbacks[1..]); }
  }

  /** Injecting twice equals injecting once, through arbitrarily nested set queries. */
  lemma {:induction false} InjectIdempotent(q: Query, fallbacks: Fallbacks)
    ensures Inject(Inject(q, fallbacks), fallbacks) == Inject(q, fallbacks)
    decreases q
  {
    match q
    case Select(where, clauses) =>
      var where' := NewWhere(where, Missing(where, fallbacks));
      forall i | 0 <= i < |fallbacks| ensures Detected(where', fallbacks[i].0) { NowDetected(where, fallbacks, i); }
      NothingMissing(where', fallbacks);
    case SetQuery(initial, subsequent) =>
      InjectIdempotent(initial, fallbacks);
      forall i | 0 <= i < |subsequent|
        ensures Inject(Inject(subsequent[i].query, fallbacks), fallbacks) == Inject(subsequent[i].query, fallbacks)
      {
        InjectIdempotent(subsequent[i].query, fallbacks);
      }
      var once := Inject(q, fallbacks).subsequent;
      assert Inject(Inject(q, fallbacks), fallbacks).subsequent == once;
  }

  // ----- What detection sees ---------------------------------------------------------------------

  function Children(e: Expr): seq<Expr>
  {
    match e
    case And(exprs) => exprs
    case Or(exprs) => exprs
    case Not(expr) => [expr]
    case Compare(left, right, _) => [left, right]
    case Between(expr, low, high, _) => [expr, low, high]
    case Field(_) => []
    case Constant(_) => []
    case Call(_, args) => args
    case Tuple(exprs) => exprs
    case Other(_, parts) => parts
  }

  /** Detection looks into logical nodes, comparisons and the subject of BETWEEN. */
  predicate Open(e: Expr, child: nat)
  {
    e.And? || e.Or? || e.Not? || e.Compare? || (e.Between? && child == 0)
  }

  /** A field that names the column, reached by a path of child positions; `open` if every step is looked into. */
  predicate Names(e: Expr, path: seq<nat>, column: string, open: bool)
    decreases path
  {
    if path == [] then e.Field? && Name(column) in e.chain
    else path[0] < |Children(e)| && (open ==> Open(e, path[0])) && Names(Children(e)[path[0]], path[1..], column, open)
  }

  lemma {:induction false} PathIsDetected(e: Expr, path: seq<nat>, column: string)
    requires Names(e, path, column, true)
    ensures Referenced(e, column)
    decreases path
  {
    if path != [] { PathIsDetected(Children(e)[path[0]], path[1..], column); }
  }

  lemma {:induction false} DetectedHasPath(e: Expr, column: string) returns (path: seq<nat>)
    requires Referenced(e, column)
    ensures Names(e, path, column, true)
    decreases e
  {
    match e
    case And(exprs) =>
      var i :| 0 <= i < |exprs| && Referenced(exprs[i], column);
      var rest := DetectedHasPath(exprs[i], column);
      path := [i] + rest;
    case Or(exprs) =>
      var i :| 0 <= i < |exprs| && Referenced(exprs[i], column);
      var rest := DetectedHasPath(exprs[i], column);
      path := [i] + rest;
    case Not(expr) =>
      var rest := DetectedHasPath(expr, column);
      path := [0] + rest;
    case Compare(left, right, _) =>
      if Referenced(left, column) {
        var rest := DetectedHasPath(left, column);
        path := [0] + rest;
      } else {
        var rest := DetectedHasPath(right, column);
        path := [1] + rest;
      }
    case Between(expr, _, _, _) =>
      var rest := DetectedHasPath(expr, column);
      path := [0] + rest;
    case Field(_) => path := [];
    case _ => path := [];
  }

  /**
   A column counts as filtered exactly when some field naming it is reached through logical nodes,
   comparisons and BETWEEN subjects alone. A column named only inside calls, tuples, BETWEEN bounds
   or any other node does not count, and its fallback is added.
   */
  lemma DetectionExactly(e: Expr, column: string)
    ensures Referenced(e, column) <==> exists path :: Names(e, path, column, true)
  {
    hide Referenced, Names;
    if Referenced(e, column) {
      var path := DetectedHasPath(e, column);
      assert Names(e, path, column, true);
    } else if exists path :: Names(e, path, column, true) {
      var path :| Names(e, path, column, true);
      PathIsDetected(e, path, column);
    }
  }

  /** A column that a query does filter on can be missed: here it stands inside a call. */
  lemma CallHidesColumn(column: string, c: Condition)
    ensures var where := Compare(Call("toDate", [Field([Name(column)])]), Constant(Text("2024-01-01")), GtEq);
      && Names(where, [0, 0], column, false)
      && Missing(Some(where), [(column, c)]) == [FallbackExpr(column, c)]
  {
    var field := Field([Name(column)]);
    var call := Call("toDate", [field]);
    var where := Compare(call, Constant(Text("2024-01-01")), GtEq);
    assert Children(where)[0] == call && Children(call)[0] == field && [0, 0][1..] == [0] && [0][1..] == [];
    assert Names(field, [], column, false) && Names(call, [0], column, false);
    assert !Referenced(where, column);
    assert [(column, c)][1..] == [];
  }
}
