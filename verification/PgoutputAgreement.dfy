/** The object decoder and the array decoder present the same rows. */
module PgoutputAgreement {
  import opened Results
  import opened Pgoutput

  predicate DistinctNames(columns: seq<Column>)
  {
    forall i, j | 0 <= i < j < |columns| :: columns[i].name != columns[j].name
  }

  /** Array slot `i` is the object's field named after column `i`, and the object has no other field. */
  ghost predicate RowsAgree(columns: seq<Column>, o: Object, a: Array)
  {
    && |a| <= |columns|
    && (forall i | 0 <= i < |a| :: columns[i].name in o && o[columns[i].name] == a[i])
    && (forall name | name in o :: exists i :: 0 <= i < |a| && columns[i].name == name)
  }

  /** The two decoders fall back on the same value for every column. */
  ghost predicate FallbacksAgree(columns: seq<Column>, o: Object, a: Array)
  {
    forall i | 0 <= i < |columns| :: Lookup(o, columns[i].name) == At(a, i)
  }

  lemma RowsAsFallback(columns: seq<Column>, o: Object, a: Array)
    requires DistinctNames(columns) && RowsAgree(columns, o, a)
    ensures FallbacksAgree(columns, o, a)
  {
    forall i | 0 <= i < |columns| ensures Lookup(o, columns[i].name) == At(a, i) {
      if i >= |a| { assert forall j | 0 <= j < |a| :: columns[j].name != columns[i].name; }
    }
  }

  lemma OneMoreAgrees(columns: seq<Column>, o: Object, a: Array, v: Value)
    requires DistinctNames(columns) && RowsAgree(columns, o, a) && |a| < |columns|
    ensures RowsAgree(columns, o[columns[|a|].name := v], a + [v])
  {
    var n := |a|;
    var o', a' := o[columns[n].name := v], a + [v];
    forall name | name in o' ensures exists i :: 0 <= i < |a'| && columns[i].name == name {
      if name == columns[n].name {
        assert 0 <= n < |a'|;
      } else {
        var i :| 0 <= i < n && columns[i].name == name;
        assert 0 <= i < |a'|;
      }
    }
    forall i | 0 <= i < |a'| ensures columns[i].name in o' && o'[columns[i].name] == a'[i] {
      if i < n {
        assert columns[i].name != columns[n].name;
        assert a'[i] == a[i];
      }
    }
  }

  lemma ArraySnoc(columns: seq<Column>, fields: seq<Field>, n: nat, fa: Array, utf8: Utf8)
    requires n < |fields| <= |columns|
    ensures ArrayOf(columns, fields, n + 1, fa, utf8)
      == ArrayOf(columns, fields, n, fa, utf8) + [ValueOf(fields[n], columns[n], At(fa, n), utf8)]
  {
    hide ValueOf;
  }

  lemma {:induction false} FieldsAgree(columns: seq<Column>, fields: seq<Field>, n: nat, fo: Object, fa: Array,
                                       utf8: Utf8)
    requires n <= |fields| <= |columns| && DistinctNames(columns) && FallbacksAgree(columns, fo, fa)
    ensures RowsAgree(columns, ObjectOf(columns, fields, n, fo, utf8), ArrayOf(columns, fields, n, fa, utf8))
    decreases n
  {
    hide RowsAgree, DistinctNames, ArrayOf, ValueOf;
    if n > 0 {
      FieldsAgree(columns, fields, n - 1, fo, fa, utf8);
      ArraySnoc(columns, fields, n - 1, fa, utf8);
      OneMoreAgrees(columns, ObjectOf(columns, fields, n - 1, fo, utf8), ArrayOf(columns, fields, n - 1, fa, utf8),
                    ValueOf(fields[n - 1], columns[n - 1], At(fa, n - 1), utf8));
    } else {
      NothingAgrees(columns);
      assert ArrayOf(columns, fields, 0, fa, utf8) == [];
    }
  }

  lemma NothingAgrees(columns: seq<Column>)
    ensures RowsAgree(columns, map[], [])
  {
  }

  lemma RowAgrees(r: Relation, t: Tuple, fo: Object, fa: Array, utf8: Utf8)
    requires |t.fields| <= |r.columns| && DistinctNames(r.columns) && FallbacksAgree(r.columns, fo, fa)
    ensures RowsAgree(r.columns, Row(r, t, fo, utf8), RowArray(r, t, fa, utf8))
    ensures FallbacksAgree(r.columns, Row(r, t, fo, utf8), RowArray(r, t, fa, utf8))
  {
    FieldsAgree(r.columns, t.fields, |t.fields|, fo, fa, utf8);
    RowsAsFallback(r.columns, Row(r, t, fo, utf8), RowArray(r, t, fa, utf8));
  }

  /** The object key holds exactly the key columns of the array key, null presented as undefined. */
  ghost predicate KeysAgree(r: Relation, o: Object, a: Array)
  {
    && o.Keys == (set name | name in r.keyColumns)
    && forall i | 0 <= i < |r.columns| && r.columns[i].name in r.keyColumns ::
         o[r.columns[i].name] == if At(a, i) == Null then Undefined else At(a, i)
  }

  lemma KeyAgrees(r: Relation, t: Tuple, utf8: Utf8)
    requires |t.fields| <= |r.columns| && DistinctNames(r.columns)
    ensures KeysAgree(r, KeyRow(r, Row(r, t, map[], utf8)), RowArray(r, t, [], utf8))
  {
    RowAgrees(r, t, map[], [], utf8);
  }

  ghost predicate OptionsAgree(r: Relation, o: Option<Object>, a: Option<Array>)
  {
    && (o.Some? <==> a.Some?) && (o.Some? ==> RowsAgree(r.columns, o.value, a.value))
  }

  ghost predicate OptionKeysAgree(r: Relation, o: Option<Object>, a: Option<Array>)
  {
    && (o.Some? <==> a.Some?) && (o.Some? ==> KeysAgree(r, o.value, a.value))
  }

  ghost predicate MessagesAgree(mo: Message<Object>, ma: Message<Array>)
  {
    match mo
    case Insert(r, row) => ma.Insert? && ma.relation == r && RowsAgree(r.columns, row, ma.newRow)
    case Update(r, key, before, row) =>
      && ma.Update? && ma.relation == r && OptionKeysAgree(r, key, ma.key) && OptionsAgree(r, before, ma.oldRow)
      && RowsAgree(r.columns, row, ma.newRow)
    case Delete(r, key, before) =>
      ma.Delete? && ma.relation == r && OptionKeysAgree(r, key, ma.key) && OptionsAgree(r, before, ma.oldRow)
    case _ => !ma.Insert? && !ma.Update? && !ma.Delete? && mo == Recast(ma)
  }

  /** Rows that were read fit their relation. */
  predicate Fits(m: Message<Tuple>)
  {
    match m
    case Insert(r, row) => |row.fields| <= |r.columns|
    case Update(r, key, before, row) =>
      && |row.fields| <= |r.columns| && (key.Some? ==> |key.value.fields| <= |r.columns|)
      && (before.Some? ==> |before.value.fields| <= |r.columns|) && !(key.Some? && before.Some?)
    case Delete(r, key, before) =>
      (key.Some? ==> |key.value.fields| <= |r.columns|) && (before.Some? ==> |before.value.fields| <= |r.columns|)
    case _ => true
  }

  predicate RowMessage<T>(m: Message<T>) { m.Insert? || m.Update? || m.Delete? }

  lemma ReadFits(buf: Bytes, caches: Caches, utf8: Utf8)
    ensures var r := ReadMessage(buf, caches, utf8);
      r.Got? ==> Fits(r.value) && (RowMessage(r.value) ==> r.value.relation in caches.relations.Values)
  {
    hide ReadTuple, ReadBegin, ReadOrigin, ReadType, ReadRelation, ReadTruncate, ReadLogical, ReadCommit;
    var tag := ReadUint8(buf, 0);
    if tag.Got? {
      OtherMessages(buf, tag.offset, caches, utf8);
      if tag.value == 0x49 { InsertFits(buf, tag.offset, caches.relations); }
      else if tag.value == 0x55 { UpdateFits(buf, tag.offset, caches.relations); }
      else if tag.value == 0x44 { DeleteFits(buf, tag.offset, caches.relations); }
    }
  }

  lemma OtherMessages(buf: Bytes, at: nat, caches: Caches, utf8: Utf8)
    ensures ReadBegin(buf, at).Got? ==> ReadBegin(buf, at).value.Begin?
    ensures ReadOrigin(buf, at, utf8).Got? ==> ReadOrigin(buf, at, utf8).value.Origin?
    ensures ReadType(buf, at, utf8).Got? ==> ReadType(buf, at, utf8).value.TypeMessage?
    ensures ReadRelationMessage(buf, at, caches.types, utf8).Got? ==>
      ReadRelationMessage(buf, at, caches.types, utf8).value.RelationMessage?
    ensures ReadTruncate(buf, at, caches.relations).Got? ==> ReadTruncate(buf, at, caches.relations).value.Truncate?
    ensures ReadLogical(buf, at, utf8).Got? ==> ReadLogical(buf, at, utf8).value.Logical?
    ensures ReadCommit(buf, at).Got? ==> ReadCommit(buf, at).value.Commit?
  {
    hide ReadLsn, ReadTime, ReadInt32, ReadUint8, ReadString, ReadRelation, ReadRelationList, ReadBytes;
  }

  lemma InsertFits(buf: Bytes, at: nat, relations: map<int, Relation>)
    ensures var r := ReadInsert(buf, at, relations);
      r.Got? ==> r.value.Insert? && Fits(r.value) && r.value.relation in relations.Values
  {
  }

  lemma UpdateFits(buf: Bytes, at: nat, relations: map<int, Relation>)
    ensures var r := ReadUpdate(buf, at, relations);
      r.Got? ==> r.value.Update? && Fits(r.value) && r.value.relation in relations.Values
  {
  }

  lemma DeleteFits(buf: Bytes, at: nat, relations: map<int, Relation>)
    ensures var r := ReadDelete(buf, at, relations);
      r.Got? ==> r.value.Delete? && Fits(r.value) && r.value.relation in relations.Values
  {
  }

  lemma MessageAgrees(m: Message<Tuple>, utf8: Utf8)
    requires Fits(m) && (RowMessage(m) ==> DistinctNames(m.relation.columns))
    ensures MessagesAgree(ToObjects(m, utf8), ToArrays(m, utf8))
  {
    hide RowsAgree, KeysAgree, FallbacksAgree, Row, RowArray, KeyRow;
    if RowMessage(m) { EmptyFallbacks(m.relation.columns); }
    match m
    case Insert(r, row) => RowAgrees(r, row, map[], [], utf8);
    case Update(r, key, before, row) =>
      RowAgrees(r, row, map[], [], utf8);
      if key.Some? { KeyAgrees(r, key.value, utf8); }
      if before.Some? {
        RowAgrees(r, before.value, map[], [], utf8);
        RowAgrees(r, row, Row(r, before.value, map[], utf8), RowArray(r, before.value, [], utf8), utf8);
      }
    case Delete(r, key, before) =>
      if key.Some? { KeyAgrees(r, key.value, utf8); }
      if before.Some? { RowAgrees(r, before.value, map[], [], utf8); }
    case _ =>
  }

  lemma EmptyFallbacks(columns: seq<Column>)
    ensures FallbacksAgree(columns, map[], [])
  {
  }

  /** On every buffer: the array decoder succeeds exactly when the object decoder does and no field
      count is negative, and then both return the same message at the same offset, with unchanged
      values resolved alike, and leave the same caches. */
  lemma DecodersAgree(buf: Bytes, caches: Caches, utf8: Utf8)
    requires forall relation | relation in caches.relations.Values :: DistinctNames(relation.columns)
    ensures var o, a := Parse(buf, caches, utf8), ParseArray(buf, caches, utf8);
      && (a.Got? <==> o.Got? && Countable(ReadMessage(buf, caches, utf8).value))
      && (a.Got? ==>
            && a.offset == o.offset && MessagesAgree(o.value, a.value)
            && Remember(caches, a.value) == Remember(caches, o.value))
  {
    hide ReadMessage, MessagesAgree;
    ReadFits(buf, caches, utf8);
    var raw := ReadMessage(buf, caches, utf8);
    if raw.Got? {
      MessageAgrees(raw.value, utf8);
      SameMemory(caches, raw.value, utf8);
    }
  }

  lemma SameMemory(caches: Caches, m: Message<Tuple>, utf8: Utf8)
    ensures Remember(caches, ToObjects(m, utf8)) == Remember(caches, m) == Remember(caches, ToArrays(m, utf8))
  {
    hide Row, RowArray, KeyRow;
  }

  /** Both presentations of every full row agree. */
  ghost predicate RowsAlwaysAgree(r: Relation, utf8: Utf8)
  {
    forall fields: seq<Field> | |fields| == |r.columns| ::
      RowsAgree(r.columns, Row(r, Tuple(|fields|, fields), map[], utf8), RowArray(r, Tuple(|fields|, fields), [], utf8))
  }

  /** Distinct names are necessary: a repeated one makes some row differ between the decoders. */
  lemma DistinctNamesNeeded(r: Relation, utf8: Utf8)
    ensures DistinctNames(r.columns) <==> RowsAlwaysAgree(r, utf8)
  {
    hide Row, RowArray, RowsAgree;
    if DistinctNames(r.columns) {
      EmptyFallbacks(r.columns);
      forall fields: seq<Field> | |fields| == |r.columns|
        ensures RowsAgree(r.columns, Row(r, Tuple(|fields|, fields), map[], utf8),
                          RowArray(r, Tuple(|fields|, fields), [], utf8))
      {
        RowAgrees(r, Tuple(|fields|, fields), map[], [], utf8);
      }
    } else {
      var i, j :| 0 <= i < j < |r.columns| && r.columns[i].name == r.columns[j].name;
      SharedNameDiffers(r, i, j, utf8);
    }
  }

  function Marked(n: nat, i: nat): (fields: seq<Field>)
    ensures |fields| == n
  {
    seq(n, k => if k == i then BinaryField([]) else NullField)
  }

  /** Of two columns of one name the object keeps only the later value. */
  lemma SharedNameDiffers(r: Relation, i: nat, j: nat, utf8: Utf8)
    requires i < j < |r.columns| && r.columns[i].name == r.columns[j].name
    ensures var t := Tuple(|r.columns|, Marked(|r.columns|, i));
      !RowsAgree(r.columns, Row(r, t, map[], utf8), RowArray(r, t, [], utf8))
  {
    hide ObjectOf;
    var t := Tuple(|r.columns|, Marked(|r.columns|, i));
    var a := RowArray(r, t, [], utf8);
    assert a[i] == Raw([]) && a[j] == Null;
  }
}
