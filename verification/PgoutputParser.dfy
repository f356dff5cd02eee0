/**
 The decoder as the service runs it: a reader that advances an offset, caches that are updated in
 place, and tuples filled in by loops, in an object form and an array form. Every method is proved
 to follow the specification in `Pgoutput`.
 */
module PgoutputParser {
  import opened Results
  import P = Pgoutput

  type Outcome<+T> = Result<T, P.Error>

  /** A call returned what the specification reads and left the offset where it says. */
  ghost predicate Did<T>(r: Outcome<T>, offset: int, expected: P.Read<T>)
  {
    match expected
    case Got(value, next) => r == Ok(value) && offset == next
    case Failed(e) => r == Err(e)
  }

  /** The same for a message without rows, which both parsers return alike. */
  ghost predicate DidShared<T>(r: Outcome<P.Message<T>>, offset: int, expected: P.Read<P.Message<P.Tuple>>)
  {
    match expected
    case Got(m, next) => !m.Insert? && !m.Update? && !m.Delete? && r == Ok(P.Recast(m)) && offset == next
    case Failed(e) => r == Err(e)
  }

  /** A row message in object form. */
  ghost predicate DidObjects(r: Outcome<P.Message<P.Object>>, offset: int, expected: P.Read<P.Message<P.Tuple>>,
                             utf8: P.Utf8)
  {
    match expected
    case Got(m, next) => r == Ok(P.ToObjects(m, utf8)) && offset == next
    case Failed(e) => r == Err(e)
  }

  /** A row message in array form: a negative field count is refused. */
  ghost predicate DidArrays(r: Outcome<P.Message<P.Array>>, offset: int, expected: P.Read<P.Message<P.Tuple>>,
                            utf8: P.Utf8)
  {
    && (r.Ok? <==> expected.Got? && P.Countable(expected.value))
    && (r.Ok? ==> r.value == P.ToArrays(expected.value, utf8) && offset == expected.offset)
  }

  class BinaryReader {
    const buf: P.Bytes
    var offset: int

    constructor (buf: P.Bytes)
      ensures this.buf == buf && offset == 0
    {
      this.buf, offset := buf, 0;
    }

    method ReadUint8() returns (r: Outcome<int>)
      modifies this
      ensures Did(r, offset, P.ReadUint8(buf, old(offset)))
    {
      if offset < 0 || offset >= |buf| { return Err(P.OutOfRange); }
      r := Ok(buf[offset]);
      offset := offset + 1;
    }

    method ReadInt16() returns (r: Outcome<int>)
      modifies this
      ensures Did(r, offset, P.ReadInt16(buf, old(offset)))
    {
      if offset < 0 || offset + 2 > |buf| { return Err(P.OutOfRange); }
      var high: int, low: int := buf[offset], buf[offset + 1];
      r := Ok(P.Signed(high * 0x100 + low, 0x1_0000));
      offset := offset + 2;
    }

    method ReadInt32() returns (r: Outcome<int>)
      modifies this
      ensures Did(r, offset, P.ReadInt32(buf, old(offset)))
    {
      if offset < 0 || offset + 4 > |buf| { return Err(P.OutOfRange); }
      r := Ok(P.Signed(P.Uint32At(buf, offset), 0x1_0000_0000));
      offset := offset + 4;
    }

    method ReadUint32() returns (r: Outcome<int>)
      modifies this
      ensures Did(r, offset, P.ReadUint32(buf, old(offset)))
    {
      r := ReadInt32();
      if r.Ok? && r.value < 0 { r := Ok(r.value + 0x1_0000_0000); }
    }

    method ReadLsn() returns (r: Outcome<Option<string>>)
      modifies this
      ensures Did(r, offset, P.ReadLsn(buf, old(offset)))
    {
      var upper := ReadUint32();
      if upper.Err? { return Err(upper.error); }
      var lower := ReadUint32();
      if lower.Err? { return Err(lower.error); }
      return Ok(P.LsnText(upper.value, lower.value));
    }

    method ReadTime() returns (r: Outcome<int>)
      modifies this
      ensures Did(r, offset, P.ReadTime(buf, old(offset)))
    {
      var high := ReadUint32();
      if high.Err? { return Err(high.error); }
      var low := ReadUint32();
      if low.Err? { return Err(low.error); }
      return Ok(high.value * 0x1_0000_0000 + low.value + P.POSTGRES_EPOCH_MICROS);
    }

    method ReadString(utf8: P.Utf8) returns (r: Outcome<string>)
      requires offset >= 0
      modifies this
      ensures Did(r, offset, P.ReadString(buf, old(offset), utf8))
    {
      var end := P.FindZero(buf, offset);
      if end == -1 { return Err(P.NoTerminator); }
      r := Ok(utf8(buf[offset..end]));
      offset := end + 1;
    }

    method ReadBytes(len: int) returns (b: P.Bytes)
      modifies this
      ensures b == P.ReadBytes(buf, old(offset), len).value && offset == P.ReadBytes(buf, old(offset), len).offset
    {
      b := P.Subarray(buf, offset, offset + len);
      offset := offset + len;
    }
  }

  /** A byte and the position after it are read forwards. */
  lemma HeaderForward(buf: P.Bytes, at: int)
    requires at >= 0
    ensures var flags := P.ReadUint8(buf, at);
      flags.Got? ==> var lsn := P.ReadLsn(buf, flags.offset); lsn.Got? ==> lsn.offset >= 0
  {
    hide P.LsnText, P.Signed;
  }

  /** Reading a row message gives a row message. */
  lemma RowKinds(buf: P.Bytes, at: nat, relations: map<int, P.Relation>)
    ensures var m := P.ReadInsert(buf, at, relations); m.Got? ==> m.value.Insert?
    ensures var m := P.ReadUpdate(buf, at, relations); m.Got? ==> m.value.Update?
    ensures var m := P.ReadDelete(buf, at, relations); m.Got? ==> m.value.Delete?
  {
    hide P.ReadKnownRelation, P.ReadTuple, P.ReadUint8;
  }

  // ----- Loop reasoning --------------------------------------------------------------------------

  /** Reading the remaining fields completes reading them all. */
  ghost predicate Continues<T>(all: P.Read<seq<T>>, done: seq<T>, rest: P.Read<seq<T>>)
  {
    match rest
    case Got(more, end) => all == P.Got(done + more, end)
    case Failed(e) => all == P.Failed(e)
  }

  lemma StartContinues<T>(all: P.Read<seq<T>>)
    ensures Continues(all, [], all)
  {
    if all.Got? { assert [] + all.value == all.value; }
  }

  lemma {:induction false} ObjectPrefix(columns: seq<P.Column>, fields: seq<P.Field>, field: P.Field, n: nat,
                                        fallback: P.Object, utf8: P.Utf8)
    requires n <= |fields| < |columns|
    ensures P.ObjectOf(columns, fields + [field], n, fallback, utf8) == P.ObjectOf(columns, fields, n, fallback, utf8)
  {
    if n > 0 { ObjectPrefix(columns, fields, field, n - 1, fallback, utf8); }
  }

  lemma StepFields(buf: P.Bytes, at: int, width: nat, count: int, done: nat, all: P.Read<seq<P.Field>>,
                   fields: seq<P.Field>)
    requires done < count && |fields| == done && Continues(all, fields, P.ReadFields(buf, at, width, count, done))
    ensures done >= width ==> all == P.Failed(P.MissingColumn)
    ensures done < width ==> var one := P.ReadField(buf, at);
      match one
      case Failed(e) => all == P.Failed(e)
      case Got(field, next) => Continues(all, fields + [field], P.ReadFields(buf, next, width, count, done + 1))
  {
    if done < width {
      match P.ReadField(buf, at)
      case Failed(e) =>
      case Got(field, next) =>
        match P.ReadFields(buf, next, width, count, done + 1)
        case Failed(e) =>
        case Got(rest, end) => assert fields + ([field] + rest) == (fields + [field]) + rest;
    }
  }

  lemma StepColumns(buf: P.Bytes, at: nat, count: int, types: map<int, P.TypeInfo>, utf8: P.Utf8,
                    all: P.Read<seq<P.Column>>, done: seq<P.Column>)
    requires count > 0 && Continues(all, done, P.ReadColumns(buf, at, count, types, utf8))
    ensures match P.ReadColumn(buf, at, types, utf8)
      case Failed(e) => all == P.Failed(e)
      case Got(column, next) => Continues(all, done + [column], P.ReadColumns(buf, next, count - 1, types, utf8))
  {
    hide P.ReadColumn;
    match P.ReadColumn(buf, at, types, utf8)
    case Failed(e) =>
    case Got(column, next) =>
      match P.ReadColumns(buf, next, count - 1, types, utf8)
      case Failed(e) =>
      case Got(rest, end) => assert done + ([column] + rest) == (done + [column]) + rest;
  }

  lemma StepRelations(buf: P.Bytes, at: nat, count: int, relations: map<int, P.Relation>,
                      all: P.Read<seq<Option<P.Relation>>>, done: seq<Option<P.Relation>>)
    requires count > 0 && Continues(all, done, P.ReadRelationList(buf, at, count, relations))
    ensures match P.ReadInt32(buf, at)
      case Failed(e) => all == P.Failed(e)
      case Got(oid, next) =>
        Continues(all, done + [if oid in relations then Some(relations[oid]) else None],
                  P.ReadRelationList(buf, next, count - 1, relations))
  {
    match P.ReadInt32(buf, at)
    case Failed(e) =>
    case Got(oid, next) =>
      var entry := if oid in relations then Some(relations[oid]) else None;
      match P.ReadRelationList(buf, next, count - 1, relations)
      case Failed(e) =>
      case Got(rest, end) => assert done + ([entry] + rest) == (done + [entry]) + rest;
  }

  class PgoutputParser {
    const utf8: P.Utf8
    var types: map<int, P.TypeInfo>
    var relations: map<int, P.Relation>

    constructor (utf8: P.Utf8)
      ensures this.utf8 == utf8 && Caches() == P.EMPTY
    {
      this.utf8, types, relations := utf8, map[], map[];
    }

    function Caches(): P.Caches
      reads this
    {
      P.Caches(types, relations)
    }

    // ----- Rows ----------------------------------------------------------------------------------

    /** The kind byte of a field and what follows it. */
    method ReadField(reader: BinaryReader) returns (r: Outcome<P.Field>)
      modifies reader
      ensures Did(r, reader.offset, P.ReadField(reader.buf, old(reader.offset)))
    {
      var kind := reader.ReadUint8();
      if kind.Err? { return Err(kind.error); }
      if kind.value == 0x6e { return Ok(P.NullField); }
      if kind.value == 0x75 { return Ok(P.UnchangedField); }
      if kind.value != 0x62 && kind.value != 0x74 { return Err(P.UnknownAttribute); }
      var size := reader.ReadInt32();
      if size.Err? { return Err(size.error); }
      var bytes := reader.ReadBytes(size.value);
      return Ok(if kind.value == 0x62 then P.BinaryField(bytes) else P.TextField(bytes));
    }

    /** The object form: fields are stored under their column's name. */
    method ReadTuple(reader: BinaryReader, relation: P.Relation, fallback: P.Object) returns (r: Outcome<P.Object>)
      modifies reader
      ensures var expected := P.ReadTuple(reader.buf, old(reader.offset), |relation.columns|);
        && (expected.Got? ==>
            r == Ok(P.Row(relation, expected.value, fallback, utf8)) && reader.offset == expected.offset)
        && (expected.Failed? ==> r == Err(expected.error))
    {
      hide P.ReadField, P.ReadInt16, P.ValueOf, P.Lookup;
      var columns := relation.columns;
      var count := reader.ReadInt16();
      if count.Err? { return Err(count.error); }
      ghost var all := P.ReadFields(reader.buf, reader.offset, |columns|, count.value, 0);
      ghost var fields: seq<P.Field> := [];
      StartContinues(all);
      var tuple: P.Object := map[];
      var i := 0;
      while i < count.value
        invariant 0 <= i <= |columns| && |fields| == i && (i <= count.value || i == 0)
        invariant Continues(all, fields, P.ReadFields(reader.buf, reader.offset, |columns|, count.value, i))
        invariant tuple == P.ObjectOf(columns, fields, i, fallback, utf8)
      {
        StepFields(reader.buf, reader.offset, |columns|, count.value, i, all, fields);
        if i >= |columns| { return Err(P.MissingColumn); }
        var column := columns[i];
        var field := ReadField(reader);
        if field.Err? { return Err(field.error); }
        tuple := tuple[column.name := P.ValueOf(field.value, column, P.Lookup(fallback, column.name), utf8)];
        ObjectPrefix(columns, fields, field.value, i, fallback, utf8);
        fields := fields + [field.value];
        i := i + 1;
      }
      assert fields + [] == fields;
      return Ok(tuple);
    }

    /** The array form: fields are stored at their column's index. */
    method ReadTupleAsArray(reader: BinaryReader, relation: P.Relation, fallback: P.Array) returns (r: Outcome<P.Array>)
      modifies reader
      ensures var expected := P.ReadTuple(reader.buf, old(reader.offset), |relation.columns|);
        && (r.Ok? <==> expected.Got? && expected.value.count >= 0)
        && (r.Ok? ==>
              && r.value == P.RowArray(relation, expected.value, fallback, utf8)
              && reader.offset == expected.offset)
    {
      var columns := relation.columns;
      var count := reader.ReadInt16();
      if count.Err? { return Err(count.error); }
      if count.value < 0 { return Err(P.OutOfRange); }
      ghost var all := P.ReadFields(reader.buf, reader.offset, |columns|, count.value, 0);
      ghost var fields: seq<P.Field> := [];
      StartContinues(all);
      var tuple: P.Array := [];
      var i := 0;
      while i < count.value
        invariant 0 <= i <= |columns| && i <= count.value && |fields| == i && |tuple| == i
        invariant Continues(all, fields, P.ReadFields(reader.buf, reader.offset, |columns|, count.value, i))
        invariant forall j | 0 <= j < i :: tuple[j] == P.ValueOf(fields[j], columns[j], P.At(fallback, j), utf8)
      {
        StepFields(reader.buf, reader.offset, |columns|, count.value, i, all, fields);
        if i >= |columns| { return Err(P.MissingColumn); }
        var field := ReadField(reader);
        if field.Err? { return Err(field.error); }
        tuple := tuple + [P.ValueOf(field.value, columns[i], P.At(fallback, i), utf8)];
        fields := fields + [field.value];
        i := i + 1;
      }
      assert fields + [] == fields;
      return Ok(tuple);
    }

    /** The key columns of a row, read into a fresh object. */
    method ReadKeyTuple(reader: BinaryReader, relation: P.Relation) returns (r: Outcome<P.Object>)
      modifies reader
      ensures var expected := P.ReadTuple(reader.buf, old(reader.offset), |relation.columns|);
        && (expected.Got? ==>
            r == Ok(P.KeyRow(relation, P.Row(relation, expected.value, map[], utf8)))
              && reader.offset == expected.offset)
        && (expected.Failed? ==> r == Err(expected.error))
    {
      var tuple := ReadTuple(reader, relation, map[]);
      if tuple.Err? { return Err(tuple.error); }
      var key: P.Object := map[];
      var names := relation.keyColumns;
      for i := 0 to |names|
        invariant key == map name | name in names[..i] :: P.KeyValue(tuple.value, name)
      {
        key := key[names[i] := P.KeyValue(tuple.value, names[i])];
        assert names[..i + 1] == names[..i] + [names[i]];
      }
      assert names[..|names|] == names;
      return Ok(key);
    }

    /** The relation oid that opens every row message. */
    method ReadKnownRelation(reader: BinaryReader) returns (r: Outcome<P.Relation>)
      requires reader.offset >= 0
      modifies reader
      ensures Did(r, reader.offset, P.ReadKnownRelation(reader.buf, old(reader.offset), relations))
    {
      var oid := reader.ReadInt32();
      if oid.Err? { return Err(oid.error); }
      if oid.value !in relations { return Err(P.MissingRelation); }
      return Ok(relations[oid.value]);
    }

    method MsgInsert(reader: BinaryReader) returns (r: Outcome<P.Message<P.Object>>)
      requires reader.offset >= 0
      modifies reader
      ensures DidObjects(r, reader.offset, P.ReadInsert(reader.buf, old(reader.offset), relations), utf8)
    {
      hide P.ReadKnownRelation, P.ReadTuple, P.ReadUint8, P.Row;
      var relation := ReadKnownRelation(reader);
      if relation.Err? { return Err(relation.error); }
      var tag := reader.ReadUint8();
      if tag.Err? { return Err(tag.error); }
      var row := ReadTuple(reader, relation.value, map[]);
      if row.Err? { return Err(row.error); }
      return Ok(P.Insert(relation.value, row.value));
    }

    method MsgUpdate(reader: BinaryReader) returns (r: Outcome<P.Message<P.Object>>)
      requires reader.offset >= 0
      modifies reader
      ensures DidObjects(r, reader.offset, P.ReadUpdate(reader.buf, old(reader.offset), relations), utf8)
    {
      hide P.ReadKnownRelation, P.ReadTuple, P.ReadUint8, P.Row, P.KeyRow;
      var relation := ReadKnownRelation(reader);
      if relation.Err? { return Err(relation.error); }
      var kind := reader.ReadUint8();
      if kind.Err? { return Err(kind.error); }
      if kind.value == 0x4b {
        var key := ReadKeyTuple(reader, relation.value);
        if key.Err? { return Err(key.error); }
        var tag := reader.ReadUint8();
        if tag.Err? { return Err(tag.error); }
        var row := ReadTuple(reader, relation.value, map[]);
        if row.Err? { return Err(row.error); }
        return Ok(P.Update(relation.value, Some(key.value), None, row.value));
      } else if kind.value == 0x4f {
        var before := ReadTuple(reader, relation.value, map[]);
        if before.Err? { return Err(before.error); }
        var tag := reader.ReadUint8();
        if tag.Err? { return Err(tag.error); }
        var row := ReadTuple(reader, relation.value, before.value);
        if row.Err? { return Err(row.error); }
        return Ok(P.Update(relation.value, None, Some(before.value), row.value));
      } else if kind.value == 0x4e {
        var row := ReadTuple(reader, relation.value, map[]);
        if row.Err? { return Err(row.error); }
        return Ok(P.Update(relation.value, None, None, row.value));
      } else {
        return Err(P.UnknownSubmessage);
      }
    }

    method MsgDelete(reader: BinaryReader) returns (r: Outcome<P.Message<P.Object>>)
      requires reader.offset >= 0
      modifies reader
      ensures DidObjects(r, reader.offset, P.ReadDelete(reader.buf, old(reader.offset), relations), utf8)
    {
      hide P.ReadKnownRelation, P.ReadTuple, P.ReadUint8, P.Row, P.KeyRow;
      var relation := ReadKnownRelation(reader);
      if relation.Err? { return Err(relation.error); }
      var kind := reader.ReadUint8();
      if kind.Err? { return Err(kind.error); }
      if kind.value == 0x4b {
        var key := ReadKeyTuple(reader, relation.value);
        if key.Err? { return Err(key.error); }
        return Ok(P.Delete(relation.value, Some(key.value), None));
      } else if kind.value == 0x4f {
        var before := ReadTuple(reader, relation.value, map[]);
        if before.Err? { return Err(before.error); }
        return Ok(P.Delete(relation.value, None, Some(before.value)));
      } else {
        return Err(P.UnknownSubmessage);
      }
    }

    // ----- Rows as arrays ------------------------------------------------------------------------

    method MsgInsertArray(reader: BinaryReader) returns (r: Outcome<P.Message<P.Array>>)
      requires reader.offset >= 0
      modifies reader
      ensures DidArrays(r, reader.offset, P.ReadInsert(reader.buf, old(reader.offset), relations), utf8)
    {
      hide P.ReadKnownRelation, P.ReadTuple, P.ReadUint8, P.RowArray;
      var relation := ReadKnownRelation(reader);
      if relation.Err? { return Err(relation.error); }
      var tag := reader.ReadUint8();
      if tag.Err? { return Err(tag.error); }
      var row := ReadTupleAsArray(reader, relation.value, []);
      if row.Err? { return Err(row.error); }
      return Ok(P.Insert(relation.value, row.value));
    }

    method MsgUpdateArray(reader: BinaryReader) returns (r: Outcome<P.Message<P.Array>>)
      requires reader.offset >= 0
      modifies reader
      ensures DidArrays(r, reader.offset, P.ReadUpdate(reader.buf, old(reader.offset), relations), utf8)
    {
      hide P.ReadKnownRelation, P.ReadTuple, P.ReadUint8, P.RowArray;
      var relation := ReadKnownRelation(reader);
      if relation.Err? { return Err(relation.error); }
      var kind := reader.ReadUint8();
      if kind.Err? { return Err(kind.error); }
      if kind.value == 0x4b {
        var key := ReadTupleAsArray(reader, relation.value, []);
        if key.Err? { return Err(key.error); }
        var tag := reader.ReadUint8();
        if tag.Err? { return Err(tag.error); }
        var row := ReadTupleAsArray(reader, relation.value, []);
        if row.Err? { return Err(row.error); }
        return Ok(P.Update(relation.value, Some(key.value), None, row.value));
      } else if kind.value == 0x4f {
        var before := ReadTupleAsArray(reader, relation.value, []);
        if before.Err? { return Err(before.error); }
        var tag := reader.ReadUint8();
        if tag.Err? { return Err(tag.error); }
        var row := ReadTupleAsArray(reader, relation.value, before.value);
        if row.Err? { return Err(row.error); }
        return Ok(P.Update(relation.value, None, Some(before.value), row.value));
      } else if kind.value == 0x4e {
        var row := ReadTupleAsArray(reader, relation.value, []);
        if row.Err? { return Err(row.error); }
        return Ok(P.Update(relation.value, None, None, row.value));
      } else {
        return Err(P.UnknownSubmessage);
      }
    }

    method MsgDeleteArray(reader: BinaryReader) returns (r: Outcome<P.Message<P.Array>>)
      requires reader.offset >= 0
      modifies reader
      ensures DidArrays(r, reader.offset, P.ReadDelete(reader.buf, old(reader.offset), relations), utf8)
    {
      hide P.ReadKnownRelation, P.ReadTuple, P.ReadUint8, P.RowArray;
      var relation := ReadKnownRelation(reader);
      if relation.Err? { return Err(relation.error); }
      var kind := reader.ReadUint8();
      if kind.Err? { return Err(kind.error); }
      if kind.value != 0x4b && kind.value != 0x4f { return Err(P.UnknownSubmessage); }
      var row := ReadTupleAsArray(reader, relation.value, []);
      if row.Err? { return Err(row.error); }
      return Ok(if kind.value == 0x4b then P.Delete(relation.value, Some(row.value), None)
                else P.Delete(relation.value, None, Some(row.value)));
    }

    // ----- Transactions, types and relations -----------------------------------------------------

    method MsgBegin<T>(reader: BinaryReader) returns (r: Outcome<P.Message<T>>)
      requires reader.offset >= 0
      modifies reader
      ensures DidShared(r, reader.offset, P.ReadBegin(reader.buf, old(reader.offset)))
    {
      hide P.ReadLsn, P.ReadTime, P.ReadInt32;
      var lsn := reader.ReadLsn();
      if lsn.Err? { return Err(lsn.error); }
      var time := reader.ReadTime();
      if time.Err? { return Err(time.error); }
      var xid := reader.ReadInt32();
      if xid.Err? { return Err(xid.error); }
      return Ok(P.Begin(lsn.value, time.value, xid.value));
    }

    method MsgCommit<T>(reader: BinaryReader) returns (r: Outcome<P.Message<T>>)
      requires reader.offset >= 0
      modifies reader
      ensures DidShared(r, reader.offset, P.ReadCommit(reader.buf, old(reader.offset)))
    {
      hide P.ReadLsn, P.ReadTime, P.ReadUint8;
      var flags := reader.ReadUint8();
      if flags.Err? { return Err(flags.error); }
      var lsn := reader.ReadLsn();
      if lsn.Err? { return Err(lsn.error); }
      var endLsn := reader.ReadLsn();
      if endLsn.Err? { return Err(endLsn.error); }
      var time := reader.ReadTime();
      if time.Err? { return Err(time.error); }
      return Ok(P.Commit(flags.value, lsn.value, endLsn.value, time.value));
    }

    method MsgOrigin<T>(reader: BinaryReader) returns (r: Outcome<P.Message<T>>)
      requires reader.offset >= 0
      modifies reader
      ensures DidShared(r, reader.offset, P.ReadOrigin(reader.buf, old(reader.offset), utf8))
    {
      var lsn := reader.ReadLsn();
      if lsn.Err? { return Err(lsn.error); }
      var name := reader.ReadString(utf8);
      if name.Err? { return Err(name.error); }
      return Ok(P.Origin(lsn.value, name.value));
    }

    /** Remembers the type for the relations described after it. */
    method MsgType<T>(reader: BinaryReader) returns (r: Outcome<P.Message<T>>)
      requires reader.offset >= 0
      modifies reader, this
      ensures DidShared(r, reader.offset, P.ReadType(reader.buf, old(reader.offset), utf8))
      ensures Caches() == if r.Ok? then P.Remember(old(Caches()), r.value) else old(Caches())
    {
      var oid := reader.ReadInt32();
      if oid.Err? { return Err(oid.error); }
      var schema := reader.ReadString(utf8);
      if schema.Err? { return Err(schema.error); }
      var name := reader.ReadString(utf8);
      if name.Err? { return Err(name.error); }
      types := types[oid.value := P.TypeInfo(schema.value, name.value)];
      return Ok(P.TypeMessage(oid.value, P.TypeInfo(schema.value, name.value)));
    }

    method ReadRelationColumn(reader: BinaryReader) returns (r: Outcome<P.Column>)
      requires reader.offset >= 0
      modifies reader
      ensures Did(r, reader.offset, P.ReadColumn(reader.buf, old(reader.offset), types, utf8))
    {
      var flags := reader.ReadUint8();
      if flags.Err? { return Err(flags.error); }
      var name := reader.ReadString(utf8);
      if name.Err? { return Err(name.error); }
      var typeOid := reader.ReadInt32();
      if typeOid.Err? { return Err(typeOid.error); }
      var typeMod := reader.ReadInt32();
      if typeMod.Err? { return Err(typeMod.error); }
      return Ok(P.MakeColumn(types, flags.value, name.value, typeOid.value, typeMod.value));
    }

    method ReadRelationColumns(reader: BinaryReader, count: int) returns (r: Outcome<seq<P.Column>>)
      requires reader.offset >= 0
      modifies reader
      ensures Did(r, reader.offset, P.ReadColumns(reader.buf, old(reader.offset), count, types, utf8))
    {
      hide P.ReadColumn;
      ghost var all := P.ReadColumns(reader.buf, reader.offset, count, types, utf8);
      var columns: seq<P.Column> := [];
      StartContinues(all);
      var left := count;
      while left > 0
        invariant reader.offset >= 0
        invariant Continues(all, columns, P.ReadColumns(reader.buf, reader.offset, left, types, utf8))
      {
        StepColumns(reader.buf, reader.offset, left, types, utf8, all, columns);
        var column := ReadRelationColumn(reader);
        if column.Err? { return Err(column.error); }
        columns := columns + [column.value];
        left := left - 1;
      }
      assert columns + [] == columns;
      return Ok(columns);
    }

    /** Remembers the relation for the rows that name it. */
    method MsgRelation<T>(reader: BinaryReader) returns (r: Outcome<P.Message<T>>)
      requires reader.offset >= 0
      modifies reader, this
      ensures DidShared(r, reader.offset, P.ReadRelationMessage(reader.buf, old(reader.offset), old(types), utf8))
      ensures Caches() == if r.Ok? then P.Remember(old(Caches()), r.value) else old(Caches())
    {
      hide P.ReadColumns, P.KeyColumns;
      var oid := reader.ReadInt32();
      if oid.Err? { return Err(oid.error); }
      var schema := reader.ReadString(utf8);
      if schema.Err? { return Err(schema.error); }
      var name := reader.ReadString(utf8);
      if name.Err? { return Err(name.error); }
      var ident := reader.ReadUint8();
      if ident.Err? { return Err(ident.error); }
      var identity := P.IdentityOf(ident.value);
      if identity.Failed? { return Err(identity.error); }
      var count := reader.ReadInt16();
      if count.Err? { return Err(count.error); }
      var columns := ReadRelationColumns(reader, count.value);
      if columns.Err? { return Err(columns.error); }
      var relation := P.Relation(oid.value, schema.value, name.value, identity.value, columns.value,
                                 P.KeyColumns(columns.value));
      relations := relations[oid.value := relation];
      return Ok(P.RelationMessage(relation));
    }

    method MsgTruncate<T>(reader: BinaryReader) returns (r: Outcome<P.Message<T>>)
      requires reader.offset >= 0
      modifies reader
      ensures DidShared(r, reader.offset, P.ReadTruncate(reader.buf, old(reader.offset), relations))
    {
      var count := reader.ReadInt32();
      if count.Err? { return Err(count.error); }
      var flags := reader.ReadUint8();
      if flags.Err? { return Err(flags.error); }
      ghost var all := P.ReadRelationList(reader.buf, reader.offset, count.value, relations);
      var list: seq<Option<P.Relation>> := [];
      StartContinues(all);
      var left := count.value;
      while left > 0
        invariant reader.offset >= 0
        invariant Continues(all, list, P.ReadRelationList(reader.buf, reader.offset, left, relations))
      {
        StepRelations(reader.buf, reader.offset, left, relations, all, list);
        var oid := reader.ReadInt32();
        if oid.Err? { return Err(oid.error); }
        list := list + [if oid.value in relations then Some(relations[oid.value]) else None];
        left := left - 1;
      }
      assert list + [] == list;
      return Ok(P.Truncate(flags.value % 2 == 1, flags.value / 2 % 2 == 1, list));
    }

    method MsgMessage<T>(reader: BinaryReader) returns (r: Outcome<P.Message<T>>)
      requires reader.offset >= 0
      modifies reader
      ensures DidShared(r, reader.offset, P.ReadLogical(reader.buf, old(reader.offset), utf8))
    {
      hide P.ReadUint8, P.ReadInt32, P.ReadLsn, P.Subarray, P.FindZero;
      HeaderForward(reader.buf, reader.offset);
      var flags := reader.ReadUint8();
      if flags.Err? { return Err(flags.error); }
      var lsn := reader.ReadLsn();
      if lsn.Err? { return Err(lsn.error); }
      var prefix := reader.ReadString(utf8);
      if prefix.Err? { return Err(prefix.error); }
      var size := reader.ReadInt32();
      if size.Err? { return Err(size.error); }
      var content := reader.ReadBytes(size.value);
      return Ok(P.Logical(flags.value, flags.value % 2 == 1, lsn.value, prefix.value, content));
    }

    // ----- The two parsers -----------------------------------------------------------------------

    /** The messages that both parsers read with the same code; row messages are left to the caller. */
    method ParseShared<T>(tag: int, reader: BinaryReader) returns (r: Outcome<P.Message<T>>)
      requires reader.offset >= 0 && tag !in {0x49, 0x55, 0x44}
      modifies reader, this
      ensures DidShared(r, reader.offset, P.ReadBody(tag, reader.buf, old(reader.offset), old(Caches()), utf8))
      ensures Caches() == if r.Ok? then P.Remember(old(Caches()), r.value) else old(Caches())
    {
      hide P.ReadType, P.ReadRelationMessage, P.ReadUint8, P.ReadInt32, P.ReadLsn, P.ReadTime, P.ReadString;
      if tag == 0x42 { r := MsgBegin(reader); }
      else if tag == 0x4f { r := MsgOrigin(reader); }
      else if tag == 0x59 { r := MsgType(reader); }
      else if tag == 0x52 { r := MsgRelation(reader); }
      else if tag == 0x54 { r := MsgTruncate(reader); }
      else if tag == 0x4d { r := MsgMessage(reader); }
      else if tag == 0x43 { r := MsgCommit(reader); }
      else { r := Err(P.UnknownMessage); }
    }

    /** Rows as objects. */
    method Parse(buf: P.Bytes) returns (r: Outcome<P.Message<P.Object>>, ghost end: int)
      modifies this
      ensures Did(r, end, P.Parse(buf, old(Caches()), utf8))
      ensures Caches() == if r.Ok? then P.Remember(old(Caches()), r.value) else old(Caches())
    {
      hide P.ReadBegin, P.ReadOrigin, P.ReadType, P.ReadRelationMessage, P.ReadTruncate, P.ReadLogical, P.ReadCommit,
        P.ReadInsert, P.ReadUpdate, P.ReadDelete;
      RowKinds(buf, 1, relations);
      var reader := new BinaryReader(buf);
      var tag := reader.ReadUint8();
      if tag.Err? { return Err(tag.error), 0; }
      if tag.value == 0x49 { r := MsgInsert(reader); }
      else if tag.value == 0x55 { r := MsgUpdate(reader); }
      else if tag.value == 0x44 { r := MsgDelete(reader); }
      else { r := ParseShared(tag.value, reader); }
      end := reader.offset;
    }

    /** Rows as arrays. */
    method ParseArray(buf: P.Bytes) returns (r: Outcome<P.Message<P.Array>>, ghost end: int)
      modifies this
      ensures var expected := P.ParseArray(buf, old(Caches()), utf8);
        && (r.Ok? <==> expected.Got?)
        && (r.Ok? ==> r.value == expected.value && end == expected.offset)
      ensures Caches() == if r.Ok? then P.Remember(old(Caches()), r.value) else old(Caches())
    {
      hide P.ReadBegin, P.ReadOrigin, P.ReadType, P.ReadRelationMessage, P.ReadTruncate, P.ReadLogical, P.ReadCommit,
        P.ReadInsert, P.ReadUpdate, P.ReadDelete;
      RowKinds(buf, 1, relations);
      var reader := new BinaryReader(buf);
      var tag := reader.ReadUint8();
      if tag.Err? { return Err(tag.error), 0; }
      if tag.value == 0x49 { r := MsgInsertArray(reader); }
      else if tag.value == 0x55 { r := MsgUpdateArray(reader); }
      else if tag.value == 0x44 { r := MsgDeleteArray(reader); }
      else { r := ParseShared(tag.value, reader); }
      end := reader.offset;
    }
  }
}
