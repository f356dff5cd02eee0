/**
 The sweep that re-encrypts stored OAuth tokens under the current key, page by page, beside the
 reader that tries the current key, then the legacy key, then takes the value as it stands.

 Encryption is a parameter with one law: what the current key encrypts, it decrypts to the same text.
 Nothing is assumed about which other values either key happens to authenticate.
 */
module TokenSweep {
  import opened Results

  /** `legacy` returns nothing when no legacy key is configured. */
  datatype Keys = Keys(encrypt: (nat, string) -> string, decrypt: string -> Option<string>,
                       legacy: string -> Option<string>)

  ghost predicate Lawful(k: Keys)
  {
    forall iv, text :: k.encrypt(iv, text) != "" && k.decrypt(k.encrypt(iv, text)) == Some(text)
  }

  // ----- Classifying -----------------------------------------------------------------------------

  predicate IsBase64(c: char) { 'A' <= c <= 'Z' || 'a' <= c <= 'z' || '0' <= c <= '9' || c == '+' || c == '/' }

  predicate AllBase64(s: string) { forall i | 0 <= i < |s| :: IsBase64(s[i]) }

  /** One or more alphabet characters and at most two padding characters. */
  predicate Padded(s: string, padding: nat)
  {
    padding <= 2 && padding < |s| && AllBase64(s[..|s| - padding]) && forall i | |s| - padding <= i < |s| :: s[i] == '='
  }

  const HEADER_LENGTH := 32

  /** Standard base64 that decodes to at least an initialisation vector and a tag. */
  predicate LooksLikeCiphertext(value: string)
  {
    && |value| != 0 && |value| % 4 == 0
    && exists padding: nat | padding <= 2 :: Padded(value, padding) && (|value| - padding) * 3 / 4 >= HEADER_LENGTH
  }

  datatype Kind = Current | Legacy(text: string) | Plain(text: string) | Ambiguous

  function Classify(k: Keys, value: string): Kind
  {
    if k.decrypt(value).Some? then Current
    else if k.legacy(value).Some? then Legacy(k.legacy(value).value)
    else if !LooksLikeCiphertext(value) then Plain(value)
    else Ambiguous
  }

  /** What the service reads from a stored token. */
  function DualRead(k: Keys, value: string): string
  {
    if k.decrypt(value).Some? then k.decrypt(value).value
    else if k.legacy(value).Some? then k.legacy(value).value
    else value
  }

  // ----- Fields and rows -------------------------------------------------------------------------

  type Field = Option<string>

  datatype Row = Row(id: nat, access: Field, refresh: Field)

  predicate Bearing(row: Row) { row.access.Some? || row.refresh.Some? }

  /** Empty tokens are passed over like missing ones. */
  predicate Present(field: Field) { field.Some? && field.value != "" }

  predicate Migrates(k: Keys, field: Field)
  {
    Present(field) && (Classify(k, field.value).Legacy? || Classify(k, field.value).Plain?)
  }

  /** A field before and after a row was processed. */
  ghost predicate FieldSwept(k: Keys, before: Field, after: Field)
  {
    if Migrates(k, before) then
      after.Some? && exists iv :: after.value == k.encrypt(iv, Classify(k, before.value).text)
    else after == before
  }

  ghost predicate RowSwept(k: Keys, before: Row, after: Row)
  {
    after.id == before.id && FieldSwept(k, before.access, after.access) && FieldSwept(k, before.refresh, after.refresh)
  }

  ghost predicate TableSwept(k: Keys, before: seq<Row>, after: seq<Row>)
  {
    |before| == |after| && forall i | 0 <= i < |before| :: RowSwept(k, before[i], after[i])
  }

  // ----- The report ------------------------------------------------------------------------------

  datatype Stat = Stat(current: nat, legacy: nat, plain: nat, ambiguous: nat)

  datatype FieldName = Access | Refresh

  datatype Report = Report(scanned: nat, updated: nat, access: Stat, refresh: Stat, ambiguous: seq<(nat, FieldName)>)

  const NO_STAT := Stat(0, 0, 0, 0)
  const NO_REPORT := Report(0, 0, NO_STAT, NO_STAT, [])

  function CountField(k: Keys, stat: Stat, field: Field): Stat
  {
    if !Present(field) then stat else
    match Classify(k, field.value)
    case Current => stat.(current := stat.current + 1)
    case Legacy(_) => stat.(legacy := stat.legacy + 1)
    case Plain(_) => stat.(plain := stat.plain + 1)
    case Ambiguous => stat.(ambiguous := stat.ambiguous + 1)
  }

  function NoteField(k: Keys, row: Row, field: Field, name: FieldName): seq<(nat, FieldName)>
  {
    if Present(field) && Classify(k, field.value).Ambiguous? then [(row.id, name)] else []
  }

  function CountRow(k: Keys, r: Report, row: Row): Report
  {
    if !Bearing(row) then r else
    Report(r.scanned + 1,
           r.updated + if Migrates(k, row.access) || Migrates(k, row.refresh) then 1 else 0,
           CountField(k, r.access, row.access), CountField(k, r.refresh, row.refresh),
           r.ambiguous + NoteField(k, row, row.access, Access) + NoteField(k, row, row.refresh, Refresh))
  }

  /** The report on a table: every row that bears a token is counted once, in order. */
  function Tally(k: Keys, rows: seq<Row>): Report
  {
    if rows == [] then NO_REPORT else CountRow(k, Tally(k, rows[..|rows| - 1]), rows[|rows| - 1])
  }

  // ----- What a sweep preserves ------------------------------------------------------------------

  /** Every migrated field is from then on one of the current key's. */
  lemma MigratedIsCurrent(k: Keys, before: Field, after: Field)
    requires Lawful(k) && Migrates(k, before) && FieldSwept(k, before, after)
    ensures Present(after) && Classify(k, after.value).Current? && !Migrates(k, after)
    ensures k.decrypt(after.value) == Some(Classify(k, before.value).text)
  {
    hide LooksLikeCiphertext;
    var iv :| after.value == k.encrypt(iv, Classify(k, before.value).text);
  }

  /** The reader returns the same text before and after, for every field; ambiguous fields are not written. */
  lemma DualReadKept(k: Keys, before: Field, after: Field)
    requires Lawful(k) && FieldSwept(k, before, after)
    ensures before.Some? <==> after.Some?
    ensures before.Some? ==> DualRead(k, after.value) == DualRead(k, before.value)
    ensures before.Some? && Classify(k, before.value).Ambiguous? ==> after == before
  {
    hide LooksLikeCiphertext;
    if Migrates(k, before) { MigratedIsCurrent(k, before, after); }
  }

  /** Sweeping a row that was swept before, or not yet, gives a row swept once. */
  lemma FieldResumes(k: Keys, before: Field, middle: Field, after: Field)
    requires Lawful(k) && (middle == before || FieldSwept(k, before, middle)) && FieldSwept(k, middle, after)
    ensures FieldSwept(k, before, after)
  {
    hide Classify;
    if middle != before && Migrates(k, before) { MigratedIsCurrent(k, before, middle); }
  }

  /**
   A sweep that stopped after any of its row updates can simply be started again: the table ends up
   as a single sweep of the original table leaves it.
   */
  lemma SweepResumes(k: Keys, before: seq<Row>, middle: seq<Row>, after: seq<Row>)
    requires Lawful(k) && |before| == |middle|
    requires forall i | 0 <= i < |before| :: middle[i] == before[i] || RowSwept(k, before[i], middle[i])
    requires TableSwept(k, middle, after)
    ensures TableSwept(k, before, after)
  {
    forall i | 0 <= i < |before| ensures RowSwept(k, before[i], after[i]) {
      assert RowSwept(k, middle[i], after[i]);
      FieldResumes(k, before[i].access, middle[i].access, after[i].access);
      FieldResumes(k, before[i].refresh, middle[i].refresh, after[i].refresh);
    }
  }

  function Merged(s: Stat): Stat { Stat(s.current + s.legacy + s.plain, 0, 0, s.ambiguous) }

  lemma FieldSecond(k: Keys, s: Stat, before: Field, after: Field)
    requires Lawful(k) && FieldSwept(k, before, after)
    ensures CountField(k, Merged(s), after) == Merged(CountField(k, s, before)) && !Migrates(k, after)
  {
    hide LooksLikeCiphertext;
    if Migrates(k, before) { MigratedIsCurrent(k, before, after); }
  }

  lemma NoteSecond(k: Keys, before: Row, after: Row, name: FieldName)
    requires Lawful(k) && RowSwept(k, before, after)
    ensures NoteField(k, after, after.access, name) == NoteField(k, before, before.access, name)
    ensures NoteField(k, after, after.refresh, name) == NoteField(k, before, before.refresh, name)
  {
    hide LooksLikeCiphertext;
    if Migrates(k, before.access) { MigratedIsCurrent(k, before.access, after.access); }
    if Migrates(k, before.refresh) { MigratedIsCurrent(k, before.refresh, after.refresh); }
  }

  /**
   A second run updates nothing and reports every migrated field as current, with the same
   ambiguous fields as the first.
   */
  lemma {:induction false} SecondReport(k: Keys, before: seq<Row>, after: seq<Row>)
    requires Lawful(k) && TableSwept(k, before, after)
    ensures var first, second := Tally(k, before), Tally(k, after);
      second == Report(first.scanned, 0, Merged(first.access), Merged(first.refresh), first.ambiguous)
  {
    hide LooksLikeCiphertext, Classify, CountField, NoteField, FieldSwept, Migrates;
    if before != [] {
      var n := |before| - 1;
      SecondReport(k, before[..n], after[..n]);
      var first := Tally(k, before[..n]);
      assert RowSwept(k, before[n], after[n]);
      FieldSecond(k, first.access, before[n].access, after[n].access);
      FieldSecond(k, first.refresh, before[n].refresh, after[n].refresh);
      NoteSecond(k, before[n], after[n], Access);
      NoteSecond(k, before[n], after[n], Refresh);
      DualReadKept(k, before[n].access, after[n].access);
      DualReadKept(k, before[n].refresh, after[n].refresh);
    }
  }

  /** A second sweep leaves every row as it is. */
  lemma SecondSweepIdle(k: Keys, before: seq<Row>, middle: seq<Row>, after: seq<Row>)
    requires Lawful(k) && TableSwept(k, before, middle) && TableSwept(k, middle, after)
    ensures after == middle
  {
    forall i | 0 <= i < |middle| ensures after[i] == middle[i] {
      assert RowSwept(k, before[i], middle[i]) && RowSwept(k, middle[i], after[i]);
      FieldSecond(k, NO_STAT, before[i].access, middle[i].access);
      FieldSecond(k, NO_STAT, before[i].refresh, middle[i].refresh);
    }
  }
}
