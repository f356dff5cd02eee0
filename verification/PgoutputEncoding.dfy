/**
 The wire format of section 55.9 of the PostgreSQL 16 documentation, written as an encoder, and the
 proof that the decoder inverts it on every well-formed stream.
 */
module PgoutputEncoding {
  import opened Results
  import opened Pgoutput

  // ----- The wire format -------------------------------------------------------------------------

  function Be16(u: int): Bytes
    requires 0 <= u < 0x1_0000
  {
    [u / 0x100, u % 0x100]
  }

  function Be32(u: int): (b: Bytes)
    requires 0 <= u < 0x1_0000_0000
    ensures |b| == 4
  {
    var q1 := u / 0x100;
    var q2 := q1 / 0x100;
    var q3 := q2 / 0x100;
    [q3, q2 % 0x100, q1 % 0x100, u % 0x100]
  }

  predicate IsInt16(x: int) { -0x8000 <= x < 0x8000 }
  predicate IsInt32(x: int) { -0x8000_0000 <= x < 0x8000_0000 }
  predicate IsInt64(x: int) { -0x8000_0000_0000_0000 <= x < 0x8000_0000_0000_0000 }

  function Int16(x: int): Bytes
    requires IsInt16(x)
  {
    Be16(if x < 0 then x + 0x1_0000 else x)
  }

  function Int32(x: int): (b: Bytes)
    requires IsInt32(x)
    ensures |b| == 4
  {
    Be32(if x < 0 then x + 0x1_0000_0000 else x)
  }

  function Unsigned64(x: int): (u: int)
    requires IsInt64(x)
    ensures 0 <= u < 0x1_0000_0000_0000_0000
  {
    if x < 0 then x + 0x1_0000_0000_0000_0000 else x
  }

  function Int64(x: int): (b: Bytes)
    requires IsInt64(x)
    ensures |b| == 8
  {
    Be32(Unsigned64(x) / 0x1_0000_0000) + Be32(Unsigned64(x) % 0x1_0000_0000)
  }

  /** A null-terminated string. */
  function Str(s: Bytes): Bytes { s + [0] }

  predicate IsStr(s: Bytes) { forall i | 0 <= i < |s| :: s[i] != 0 }

  type Lsn = x: int | 0 <= x < 0x1_0000_0000_0000_0000

  function LsnBytes(lsn: Lsn): (b: Bytes)
    ensures |b| == 8
  {
    Be32(lsn / 0x1_0000_0000) + Be32(lsn % 0x1_0000_0000)
  }

  datatype WireColumn = WireColumn(flags: Byte, name: Bytes, typeOid: int, typeMod: int)

  /** Object and transaction identifiers are given as the signed 32-bit numbers the decoder reads;
      `IdentifierExact` relates them to the unsigned ones they stand for. */
  datatype Wire =
    | WireBegin(finalLsn: Lsn, timestamp: int, xid: int)
    | WireCommit(flags: Byte, commitLsn: Lsn, endLsn: Lsn, timestamp: int)
    | WireOrigin(originLsn: Lsn, name: Bytes)
    | WireType(oid: int, schema: Bytes, name: Bytes)
    | WireRelation(oid: int, schema: Bytes, name: Bytes, identity: ReplicaIdentity, columns: seq<WireColumn>)
    | WireInsert(oid: int, row: seq<Field>)
    | WireUpdate(oid: int, before: Before, row: seq<Field>)
    | WireDelete(oid: int, before: Before)
    | WireTruncate(options: Byte, oids: seq<int>)
    | WireLogical(flags: Byte, messageLsn: Lsn, prefix: Bytes, content: Bytes)

  /** The optional 'K' or 'O' submessage. */
  datatype Before = Nothing | Key(fields: seq<Field>) | Old(fields: seq<Field>)

  function IdentityByte(identity: ReplicaIdentity): Byte
  {
    match identity
    case DefaultIdentity => 0x64
    case NothingIdentity => 0x6e
    case FullIdentity => 0x66
    case IndexIdentity => 0x69
  }

  predicate IsColumn(c: WireColumn) { IsStr(c.name) && IsInt32(c.typeOid) && IsInt32(c.typeMod) }

  function ColumnBytes(c: WireColumn): Bytes
    requires IsColumn(c)
  {
    [c.flags] + (Str(c.name) + (Int32(c.typeOid) + Int32(c.typeMod)))
  }

  function ColumnsBytes(columns: seq<WireColumn>): Bytes
    requires forall i | 0 <= i < |columns| :: IsColumn(columns[i])
  {
    if columns == [] then [] else ColumnBytes(columns[0]) + ColumnsBytes(columns[1..])
  }

  predicate IsField(f: Field)
  {
    match f
    case BinaryField(bytes) => |bytes| < 0x8000_0000
    case TextField(bytes) => |bytes| < 0x8000_0000
    case _ => true
  }

  function FieldBytes(f: Field): Bytes
    requires IsField(f)
  {
    match f
    case BinaryField(bytes) => [0x62] + (Int32(|bytes|) + bytes)
    case TextField(bytes) => [0x74] + (Int32(|bytes|) + bytes)
    case NullField => [0x6e]
    case UnchangedField => [0x75]
  }

  predicate IsRow(fields: seq<Field>) { |fields| < 0x8000 && forall i | 0 <= i < |fields| :: IsField(fields[i]) }

  function FieldsBytes(fields: seq<Field>): Bytes
    requires forall i | 0 <= i < |fields| :: IsField(fields[i])
  {
    if fields == [] then [] else FieldBytes(fields[0]) + FieldsBytes(fields[1..])
  }

  function RowBytes(fields: seq<Field>): Bytes
    requires IsRow(fields)
  {
    Int16(|fields|) + FieldsBytes(fields)
  }

  function OidsBytes(oids: seq<int>): Bytes
    requires forall i | 0 <= i < |oids| :: IsInt32(oids[i])
  {
    if oids == [] then [] else Int32(oids[0]) + OidsBytes(oids[1..])
  }

  predicate IsBefore(b: Before) { b.Nothing? || IsRow(b.fields) }

  /** The value ranges of the format. */
  predicate IsWire(w: Wire)
  {
    match w
    case WireBegin(_, timestamp, xid) => IsInt64(timestamp) && IsInt32(xid)
    case WireCommit(_, _, _, timestamp) => IsInt64(timestamp)
    case WireOrigin(_, name) => IsStr(name)
    case WireType(oid, schema, name) => IsInt32(oid) && IsStr(schema) && IsStr(name)
    case WireRelation(oid, schema, name, _, columns) =>
      && IsInt32(oid) && IsStr(schema) && IsStr(name) && |columns| < 0x8000
      && forall i | 0 <= i < |columns| :: IsColumn(columns[i])
    case WireInsert(oid, row) => IsInt32(oid) && IsRow(row)
    case WireUpdate(oid, before, row) => IsInt32(oid) && IsBefore(before) && IsRow(row)
    case WireDelete(oid, before) => IsInt32(oid) && !before.Nothing? && IsRow(before.fields)
    case WireTruncate(_, oids) => |oids| < 0x8000_0000 && forall i | 0 <= i < |oids| :: IsInt32(oids[i])
    case WireLogical(_, _, prefix, content) => IsStr(prefix) && |content| < 0x8000_0000
  }

  function Encode(w: Wire): Bytes
    requires IsWire(w)
  {
    match w
    case WireBegin(lsn, timestamp, xid) => [0x42] + (LsnBytes(lsn) + (Int64(timestamp) + Int32(xid)))
    case WireCommit(flags, lsn, endLsn, timestamp) =>
      [0x43] + ([flags] + (LsnBytes(lsn) + (LsnBytes(endLsn) + Int64(timestamp))))
    case WireOrigin(lsn, name) => [0x4f] + (LsnBytes(lsn) + Str(name))
    case WireType(oid, schema, name) => [0x59] + (Int32(oid) + (Str(schema) + Str(name)))
    case WireRelation(oid, schema, name, identity, columns) =>
      [0x52] + (Int32(oid)
          + (Str(schema) + (Str(name) + ([IdentityByte(identity)] + (Int16(|columns|) + ColumnsBytes(columns))))))
    case WireInsert(oid, row) => [0x49] + (Int32(oid) + ([0x4e] + RowBytes(row)))
    case WireUpdate(oid, before, row) =>
      var tail := [0x4e] + RowBytes(row);
      [0x55] + (Int32(oid) + match before
                             case Nothing => tail
                             case Key(fields) => [0x4b] + (RowBytes(fields) + tail)
                             case Old(fields) => [0x4f] + (RowBytes(fields) + tail))
    case WireDelete(oid, before) =>
      [0x44] + (Int32(oid) + ([if before.Key? then 0x4b else 0x4f] + RowBytes(before.fields)))
    case WireTruncate(options, oids) => [0x54] + (Int32(|oids|) + ([options] + OidsBytes(oids)))
    case WireLogical(flags, lsn, prefix, content) =>
      [0x4d] + ([flags] + (LsnBytes(lsn) + (Str(prefix) + (Int32(|content|) + content))))
  }

  // ----- What a message means to the decoder -----------------------------------------------------

  function LsnMeaning(lsn: Lsn): Option<string> { LsnText(lsn / 0x1_0000_0000, lsn % 0x1_0000_0000) }

  /** Microseconds since the Unix epoch, as the decoder computes them. */
  function TimeMeaning(timestamp: int): int
    requires IsInt64(timestamp)
  {
    Unsigned64(timestamp) + POSTGRES_EPOCH_MICROS
  }

  function ColumnMeaning(c: WireColumn, types: map<int, TypeInfo>, utf8: Utf8): Column
  {
    MakeColumn(types, c.flags, utf8(c.name), c.typeOid, c.typeMod)
  }

  function ColumnsMeaning(columns: seq<WireColumn>, types: map<int, TypeInfo>, utf8: Utf8): (r: seq<Column>)
    ensures |r| == |columns|
  {
    if columns == [] then [] else [ColumnMeaning(columns[0], types, utf8)] + ColumnsMeaning(columns[1..], types, utf8)
  }

  function RelationMeaning(w: Wire, types: map<int, TypeInfo>, utf8: Utf8): Relation
    requires w.WireRelation?
  {
    var columns := ColumnsMeaning(w.columns, types, utf8);
    Relation(w.oid, utf8(w.schema), utf8(w.name), w.identity, columns, KeyColumns(columns))
  }

  function Rows(fields: seq<Field>): Tuple { Tuple(|fields|, fields) }

  /** A row message refers to a known relation and fits it. */
  predicate Decodable(w: Wire, caches: Caches)
  {
    match w
    case WireInsert(oid, row) => oid in caches.relations && |row| <= |caches.relations[oid].columns|
    case WireUpdate(oid, before, row) =>
      && oid in caches.relations && |row| <= |caches.relations[oid].columns|
      && (before.Nothing? || |before.fields| <= |caches.relations[oid].columns|)
    case WireDelete(oid, before) =>
      oid in caches.relations && (before.Nothing? || |before.fields| <= |caches.relations[oid].columns|)
    case _ => true
  }

  function Known(oids: seq<int>, relations: map<int, Relation>): seq<Option<Relation>>
  {
    if oids == [] then []
    else [if oids[0] in relations then Some(relations[oids[0]]) else None] + Known(oids[1..], relations)
  }

  function Meaning(w: Wire, caches: Caches, utf8: Utf8): Message<Tuple>
    requires IsWire(w) && Decodable(w, caches)
  {
    match w
    case WireBegin(lsn, timestamp, xid) => Begin(LsnMeaning(lsn), TimeMeaning(timestamp), xid)
    case WireCommit(flags, lsn, endLsn, timestamp) =>
      Commit(flags, LsnMeaning(lsn), LsnMeaning(endLsn), TimeMeaning(timestamp))
    case WireOrigin(lsn, name) => Origin(LsnMeaning(lsn), utf8(name))
    case WireType(oid, schema, name) => TypeMessage(oid, TypeInfo(utf8(schema), utf8(name)))
    case WireRelation(_, _, _, _, _) => RelationMessage(RelationMeaning(w, caches.types, utf8))
    case WireInsert(oid, row) => Insert(caches.relations[oid], Rows(row))
    case WireUpdate(oid, before, row) =>
      Update(caches.relations[oid], if before.Key? then Some(Rows(before.fields)) else None,
             if before.Old? then Some(Rows(before.fields)) else None, Rows(row))
    case WireDelete(oid, before) =>
      Delete(caches.relations[oid], if before.Key? then Some(Rows(before.fields)) else None,
             if before.Old? then Some(Rows(before.fields)) else None)
    case WireTruncate(options, oids) => Truncate(options % 2 == 1, options / 2 % 2 == 1, Known(oids, caches.relations))
    case WireLogical(flags, lsn, prefix, content) =>
      Logical(flags, flags % 2 == 1, LsnMeaning(lsn), utf8(prefix), content)
  }

  // ----- Reading back what was written -----------------------------------------------------------

  /** `bytes` stand in `buf` at offset `at`. */
  ghost predicate Holds(buf: Bytes, at: int, bytes: Bytes)
  {
    0 <= at && at + |bytes| <= |buf| && buf[at..at + |bytes|] == bytes
  }

  lemma Split(buf: Bytes, at: int, a: Bytes, b: Bytes)
    requires Holds(buf, at, a + b)
    ensures Holds(buf, at, a) && Holds(buf, at + |a|, b)
  {
    var ab := buf[at..at + |a + b|];
    assert buf[at..at + |a|] == ab[..|a|] == a;
    assert buf[at + |a|..at + |a| + |b|] == ab[|a|..] == b;
  }

  lemma ReadByte(buf: Bytes, at: int, b: Byte)
    requires Holds(buf, at, [b])
    ensures ReadUint8(buf, at) == Got(b, at + 1)
  {
    assert buf[at..at + 1][0] == buf[at];
  }

  lemma ReadBe32(buf: Bytes, at: int, u: int)
    requires 0 <= u < 0x1_0000_0000 && Holds(buf, at, Be32(u))
    ensures Uint32At(buf, at) == u
  {
    var b := buf[at..at + 4];
    assert buf[at] == b[0] && buf[at + 1] == b[1] && buf[at + 2] == b[2] && buf[at + 3] == b[3];
  }

  lemma ReadInt32Back(buf: Bytes, at: int, x: int)
    requires IsInt32(x) && Holds(buf, at, Int32(x))
    ensures ReadInt32(buf, at) == Got(x, at + 4)
  {
    ReadBe32(buf, at, if x < 0 then x + 0x1_0000_0000 else x);
  }

  lemma ReadUint32Back(buf: Bytes, at: int, u: int)
    requires 0 <= u < 0x1_0000_0000 && Holds(buf, at, Be32(u))
    ensures ReadUint32(buf, at) == Got(u, at + 4)
  {
    ReadBe32(buf, at, u);
  }

  lemma ReadInt16Back(buf: Bytes, at: int, x: int)
    requires IsInt16(x) && Holds(buf, at, Int16(x))
    ensures ReadInt16(buf, at) == Got(x, at + 2)
  {
    var b := buf[at..at + 2];
    assert buf[at] == b[0] && buf[at + 1] == b[1];
  }

  lemma ReadLsnBack(buf: Bytes, at: int, lsn: Lsn)
    requires Holds(buf, at, LsnBytes(lsn))
    ensures ReadLsn(buf, at) == Got(LsnMeaning(lsn), at + 8)
  {
    Split(buf, at, Be32(lsn / 0x1_0000_0000), Be32(lsn % 0x1_0000_0000));
    ReadUint32Back(buf, at, lsn / 0x1_0000_0000);
    ReadUint32Back(buf, at + 4, lsn % 0x1_0000_0000);
  }

  lemma ReadTimeBack(buf: Bytes, at: int, timestamp: int)
    requires IsInt64(timestamp) && Holds(buf, at, Int64(timestamp))
    ensures ReadTime(buf, at) == Got(TimeMeaning(timestamp), at + 8)
  {
    var u := Unsigned64(timestamp);
    Split(buf, at, Be32(u / 0x1_0000_0000), Be32(u % 0x1_0000_0000));
    ReadUint32Back(buf, at, u / 0x1_0000_0000);
    ReadUint32Back(buf, at + 4, u % 0x1_0000_0000);
  }

  lemma ReadStringBack(buf: Bytes, at: nat, s: Bytes, utf8: Utf8)
    requires IsStr(s) && Holds(buf, at, Str(s))
    ensures ReadString(buf, at, utf8) == Got(utf8(s), at + |s| + 1)
  {
    Split(buf, at, s, [0]);
    assert buf[at + |s|..at + |s| + 1][0] == buf[at + |s|];
    assert forall i | at <= i < at + |s| :: buf[i] == s[i - at] by {
      assert forall i | at <= i < at + |s| :: buf[i] == buf[at..at + |s|][i - at];
    }
  }

  lemma ReadBytesBack(buf: Bytes, at: nat, b: Bytes)
    requires Holds(buf, at, b)
    ensures ReadBytes(buf, at, |b|) == Got(b, at + |b|)
  {
  }

  lemma ReadFieldBack(buf: Bytes, at: nat, f: Field)
    requires IsField(f) && Holds(buf, at, FieldBytes(f))
    ensures ReadField(buf, at) == Got(f, at + |FieldBytes(f)|)
  {
    hide ReadInt32, ReadBytes, Int32, Holds;
    match f
    case NullField => ReadByte(buf, at, 0x6e);
    case UnchangedField => ReadByte(buf, at, 0x75);
    case BinaryField(bytes) => ReadSizedBack(buf, at, 0x62, bytes);
    case TextField(bytes) => ReadSizedBack(buf, at, 0x74, bytes);
  }

  lemma ReadSizedBack(buf: Bytes, at: nat, kind: Byte, bytes: Bytes)
    requires |bytes| < 0x8000_0000 && Holds(buf, at, [kind] + (Int32(|bytes|) + bytes))
    ensures ReadUint8(buf, at) == Got(kind, at + 1)
    ensures ReadInt32(buf, at + 1) == Got(|bytes|, at + 5)
    ensures ReadBytes(buf, at + 5, |bytes|) == Got(bytes, at + 5 + |bytes|)
  {
    Split(buf, at, [kind], Int32(|bytes|) + bytes);
    Split(buf, at + 1, Int32(|bytes|), bytes);
    ReadByte(buf, at, kind);
    ReadInt32Back(buf, at + 1, |bytes|);
    ReadBytesBack(buf, at + 5, bytes);
  }

  lemma {:induction false} ReadFieldsBack(buf: Bytes, at: nat, width: nat, fields: seq<Field>, done: nat)
    requires done <= |fields| <= width && forall i | 0 <= i < |fields| :: IsField(fields[i])
    requires Holds(buf, at, FieldsBytes(fields[done..]))
    ensures ReadFields(buf, at, width, |fields|, done) == Got(fields[done..], at + |FieldsBytes(fields[done..])|)
    decreases |fields| - done
  {
    hide ReadField, FieldBytes, Holds;
    if done < |fields| {
      var rest := fields[done..];
      assert rest[0] == fields[done] && rest[1..] == fields[done + 1..];
      Split(buf, at, FieldBytes(fields[done]), FieldsBytes(fields[done + 1..]));
      ReadFieldBack(buf, at, fields[done]);
      ReadFieldsBack(buf, at + |FieldBytes(fields[done])|, width, fields, done + 1);
      assert [fields[done]] + fields[done + 1..] == rest;
    }
  }

  lemma ReadRowBack(buf: Bytes, at: nat, width: nat, fields: seq<Field>)
    requires IsRow(fields) && |fields| <= width && Holds(buf, at, RowBytes(fields))
    ensures ReadTuple(buf, at, width) == Got(Rows(fields), at + |RowBytes(fields)|)
  {
    Split(buf, at, Int16(|fields|), FieldsBytes(fields));
    ReadInt16Back(buf, at, |fields|);
    assert fields[0..] == fields;
    ReadFieldsBack(buf, at + 2, width, fields, 0);
  }

  lemma ReadColumnBack(buf: Bytes, at: nat, c: WireColumn, types: map<int, TypeInfo>, utf8: Utf8)
    requires IsColumn(c) && Holds(buf, at, ColumnBytes(c))
    ensures ReadColumn(buf, at, types, utf8) == Got(ColumnMeaning(c, types, utf8), at + |ColumnBytes(c)|)
  {
    hide ReadInt32, ReadUint8, ReadString, Int32, Holds, IsInt32;
    Split(buf, at, [c.flags], Str(c.name) + (Int32(c.typeOid) + Int32(c.typeMod)));
    Split(buf, at + 1, Str(c.name), Int32(c.typeOid) + Int32(c.typeMod));
    var next := at + 1 + |Str(c.name)|;
    Split(buf, next, Int32(c.typeOid), Int32(c.typeMod));
    ReadByte(buf, at, c.flags);
    ReadStringBack(buf, at + 1, c.name, utf8);
    ReadInt32Back(buf, next, c.typeOid);
    ReadInt32Back(buf, next + 4, c.typeMod);
  }

  lemma {:induction false} ReadColumnsBack(buf: Bytes, at: nat, columns: seq<WireColumn>, types: map<int, TypeInfo>,
                                           utf8: Utf8)
    requires forall i | 0 <= i < |columns| :: IsColumn(columns[i])
    requires Holds(buf, at, ColumnsBytes(columns))
    ensures ReadColumns(buf, at, |columns|, types, utf8)
      == Got(ColumnsMeaning(columns, types, utf8), at + |ColumnsBytes(columns)|)
    decreases |columns|
  {
    hide ReadColumn, ColumnBytes, Holds, IsColumn, ColumnMeaning;
    if columns != [] {
      Split(buf, at, ColumnBytes(columns[0]), ColumnsBytes(columns[1..]));
      ReadColumnBack(buf, at, columns[0], types, utf8);
      ReadColumnsBack(buf, at + |ColumnBytes(columns[0])|, columns[1..], types, utf8);
    }
  }

  lemma {:induction false} ReadOidsBack(buf: Bytes, at: nat, oids: seq<int>, relations: map<int, Relation>)
    requires forall i | 0 <= i < |oids| :: IsInt32(oids[i])
    requires Holds(buf, at, OidsBytes(oids))
    ensures ReadRelationList(buf, at, |oids|, relations) == Got(Known(oids, relations), at + |OidsBytes(oids)|)
    decreases |oids|
  {
    hide ReadInt32, Int32, Holds, IsInt32;
    if oids != [] {
      Split(buf, at, Int32(oids[0]), OidsBytes(oids[1..]));
      ReadInt32Back(buf, at, oids[0]);
      ReadOidsBack(buf, at + 4, oids[1..], relations);
    }
  }

  // ----- Each kind of message --------------------------------------------------------------------

  lemma BeginBack(buf: Bytes, at: nat, w: Wire)
    requires w.WireBegin? && IsWire(w) && Holds(buf, at, Encode(w)[1..])
    ensures ReadBegin(buf, at)
      == Got(Begin(LsnMeaning(w.finalLsn), TimeMeaning(w.timestamp), w.xid), at + |Encode(w)| - 1)
  {
    hide ReadLsn, ReadTime, ReadInt32, LsnBytes, Int64, Int32, Holds, LsnMeaning, TimeMeaning, IsInt32, IsInt64;
    Split(buf, at, LsnBytes(w.finalLsn), Int64(w.timestamp) + Int32(w.xid));
    Split(buf, at + 8, Int64(w.timestamp), Int32(w.xid));
    ReadLsnBack(buf, at, w.finalLsn);
    ReadTimeBack(buf, at + 8, w.timestamp);
    ReadInt32Back(buf, at + 16, w.xid);
  }

  lemma CommitBack(buf: Bytes, at: nat, w: Wire)
    requires w.WireCommit? && IsWire(w) && Holds(buf, at, Encode(w)[1..])
    ensures ReadCommit(buf, at)
      == Got(Commit(w.flags, LsnMeaning(w.commitLsn), LsnMeaning(w.endLsn), TimeMeaning(w.timestamp)),
             at + |Encode(w)| - 1)
  {
    hide ReadUint8, ReadLsn, ReadTime, LsnBytes, Int64, Holds, LsnMeaning, TimeMeaning, IsInt64;
    var tail2 := LsnBytes(w.endLsn) + Int64(w.timestamp);
    var tail1 := LsnBytes(w.commitLsn) + tail2;
    assert Encode(w)[1..] == [w.flags] + tail1;
    Split(buf, at, [w.flags], tail1);
    Split(buf, at + 1, LsnBytes(w.commitLsn), tail2);
    Split(buf, at + 9, LsnBytes(w.endLsn), Int64(w.timestamp));
    ReadByte(buf, at, w.flags);
    ReadLsnBack(buf, at + 1, w.commitLsn);
    ReadLsnBack(buf, at + 9, w.endLsn);
    ReadTimeBack(buf, at + 17, w.timestamp);
  }

  lemma OriginBack(buf: Bytes, at: nat, w: Wire, utf8: Utf8)
    requires w.WireOrigin? && IsWire(w) && Holds(buf, at, Encode(w)[1..])
    ensures ReadOrigin(buf, at, utf8) == Got(Origin(LsnMeaning(w.originLsn), utf8(w.name)), at + |Encode(w)| - 1)
  {
    hide ReadLsn, ReadString, LsnBytes, Holds, LsnMeaning, IsStr;
    Split(buf, at, LsnBytes(w.originLsn), Str(w.name));
    ReadLsnBack(buf, at, w.originLsn);
    ReadStringBack(buf, at + 8, w.name, utf8);
  }

  lemma TypeParts(buf: Bytes, at: nat, oid: int, schema: Bytes, name: Bytes, utf8: Utf8)
    requires IsInt32(oid) && IsStr(schema) && IsStr(name) && Holds(buf, at, Int32(oid) + (Str(schema) + Str(name)))
    ensures ReadType(buf, at, utf8)
      == Got(TypeMessage(oid, TypeInfo(utf8(schema), utf8(name))), at + 4 + |Str(schema)| + |Str(name)|)
  {
    hide ReadInt32, ReadString, Int32, Holds, IsStr, IsInt32;
    Split(buf, at, Int32(oid), Str(schema) + Str(name));
    Split(buf, at + 4, Str(schema), Str(name));
    ReadInt32Back(buf, at, oid);
    ReadStringBack(buf, at + 4, schema, utf8);
    ReadStringBack(buf, at + 4 + |Str(schema)|, name, utf8);
  }

  lemma TypeBack(buf: Bytes, at: nat, w: Wire, utf8: Utf8)
    requires w.WireType? && IsWire(w) && Holds(buf, at, Encode(w)[1..])
    ensures ReadType(buf, at, utf8)
      == Got(TypeMessage(w.oid, TypeInfo(utf8(w.schema), utf8(w.name))), at + |Encode(w)| - 1)
  {
    hide ReadType, Int32, Str, Holds, IsStr, IsInt32;
    assert Encode(w)[1..] == Int32(w.oid) + (Str(w.schema) + Str(w.name));
    TypeParts(buf, at, w.oid, w.schema, w.name, utf8);
  }

  function RelationBytes(w: Wire): Bytes
    requires w.WireRelation? && IsWire(w)
  {
    Int32(w.oid) + (Str(w.schema)
        + (Str(w.name) + ([IdentityByte(w.identity)] + (Int16(|w.columns|) + ColumnsBytes(w.columns)))))
  }

  lemma RelationParts(buf: Bytes, at: nat, w: Wire, types: map<int, TypeInfo>, utf8: Utf8)
    requires w.WireRelation? && IsWire(w) && Holds(buf, at, RelationBytes(w))
    ensures ReadRelation(buf, at, types, utf8) == Got(RelationMeaning(w, types, utf8), at + |RelationBytes(w)|)
  {
    hide ReadInt32, ReadString, ReadUint8, ReadInt16, ReadColumns, Int32, Int16, Holds, IsStr, IsInt32, ColumnsBytes,
      ColumnsMeaning, KeyColumns, IsColumn;
    var t5 := Int16(|w.columns|) + ColumnsBytes(w.columns);
    var t4 := [IdentityByte(w.identity)] + t5;
    var t3 := Str(w.name) + t4;
    var t2 := Str(w.schema) + t3;
    Split(buf, at, Int32(w.oid), t2);
    var a1 := at + 4;
    Split(buf, a1, Str(w.schema), t3);
    var a2 := a1 + |Str(w.schema)|;
    Split(buf, a2, Str(w.name), t4);
    var a3 := a2 + |Str(w.name)|;
    Split(buf, a3, [IdentityByte(w.identity)], t5);
    var a4 := a3 + 1;
    Split(buf, a4, Int16(|w.columns|), ColumnsBytes(w.columns));
    ReadInt32Back(buf, at, w.oid);
    ReadStringBack(buf, a1, w.schema, utf8);
    ReadStringBack(buf, a2, w.name, utf8);
    ReadByte(buf, a3, IdentityByte(w.identity));
    ReadInt16Back(buf, a4, |w.columns|);
    Int16Length(|w.columns|);
    ReadColumnsBack(buf, a4 + 2, w.columns, types, utf8);
  }

  lemma RelationBack(buf: Bytes, at: nat, w: Wire, types: map<int, TypeInfo>, utf8: Utf8)
    requires w.WireRelation? && IsWire(w) && Holds(buf, at, Encode(w)[1..])
    ensures ReadRelation(buf, at, types, utf8) == Got(RelationMeaning(w, types, utf8), at + |Encode(w)| - 1)
  {
    hide ReadRelation, RelationMeaning, Int32, Int16, Str, ColumnsBytes, Holds, IsStr, IsInt32, IsColumn;
    assert Encode(w)[1..] == RelationBytes(w);
    RelationParts(buf, at, w, types, utf8);
  }

  lemma Int16Length(x: int)
    requires IsInt16(x)
    ensures |Int16(x)| == 2
  {
  }

  lemma KnownRelationBack(buf: Bytes, at: nat, oid: int, relations: map<int, Relation>)
    requires IsInt32(oid) && oid in relations && Holds(buf, at, Int32(oid))
    ensures ReadKnownRelation(buf, at, relations) == Got(relations[oid], at + 4)
  {
    ReadInt32Back(buf, at, oid);
  }

  lemma InsertBack(buf: Bytes, at: nat, w: Wire, caches: Caches)
    requires w.WireInsert? && IsWire(w) && Decodable(w, caches) && Holds(buf, at, Encode(w)[1..])
    ensures ReadInsert(buf, at, caches.relations)
      == Got(Insert(caches.relations[w.oid], Rows(w.row)), at + |Encode(w)| - 1)
  {
    hide ReadKnownRelation, ReadUint8, ReadTuple, Int32, RowBytes, Holds, IsInt32, IsRow;
    Split(buf, at, Int32(w.oid), [0x4e] + RowBytes(w.row));
    Split(buf, at + 4, [0x4e], RowBytes(w.row));
    KnownRelationBack(buf, at, w.oid, caches.relations);
    ReadByte(buf, at + 4, 0x4e);
    ReadRowBack(buf, at + 5, |caches.relations[w.oid].columns|, w.row);
  }

  lemma DeleteParts(buf: Bytes, at: nat, oid: int, kind: Byte, fields: seq<Field>, relations: map<int, Relation>)
    requires IsInt32(oid) && oid in relations && IsRow(fields) && |fields| <= |relations[oid].columns|
    requires kind == 0x4b || kind == 0x4f
    requires Holds(buf, at, Int32(oid) + ([kind] + RowBytes(fields)))
    ensures ReadDelete(buf, at, relations)
      == Got(Delete(relations[oid], if kind == 0x4b then Some(Rows(fields)) else None,
                    if kind == 0x4f then Some(Rows(fields)) else None), at + 5 + |RowBytes(fields)|)
  {
    hide ReadKnownRelation, ReadUint8, ReadTuple, Int32, RowBytes, Holds, IsInt32, IsRow;
    Split(buf, at, Int32(oid), [kind] + RowBytes(fields));
    Split(buf, at + 4, [kind], RowBytes(fields));
    KnownRelationBack(buf, at, oid, relations);
    ReadByte(buf, at + 4, kind);
    ReadRowBack(buf, at + 5, |relations[oid].columns|, fields);
  }

  lemma DeleteBack(buf: Bytes, at: nat, w: Wire, caches: Caches)
    requires w.WireDelete? && IsWire(w) && Decodable(w, caches) && Holds(buf, at, Encode(w)[1..])
    ensures ReadDelete(buf, at, caches.relations)
      == Got(Delete(caches.relations[w.oid], if w.before.Key? then Some(Rows(w.before.fields)) else None,
                    if w.before.Old? then Some(Rows(w.before.fields)) else None), at + |Encode(w)| - 1)
  {
    hide ReadDelete, Int32, RowBytes, Holds, IsInt32, IsRow;
    var kind: Byte := if w.before.Key? then 0x4b else 0x4f;
    assert Encode(w)[1..] == Int32(w.oid) + ([kind] + RowBytes(w.before.fields));
    DeleteParts(buf, at, w.oid, kind, w.before.fields, caches.relations);
  }

  /** The 'N' submessage. */
  lemma NewRowBack(buf: Bytes, at: nat, width: nat, row: seq<Field>)
    requires IsRow(row) && |row| <= width && Holds(buf, at, [0x4e] + RowBytes(row))
    ensures ReadUint8(buf, at) == Got(0x4e, at + 1)
    ensures ReadTuple(buf, at + 1, width) == Got(Rows(row), at + 1 + |RowBytes(row)|)
  {
    Split(buf, at, [0x4e], RowBytes(row));
    ReadByte(buf, at, 0x4e);
    ReadRowBack(buf, at + 1, width, row);
  }

  lemma PlainUpdateBack(buf: Bytes, at: nat, w: Wire, caches: Caches)
    requires w.WireUpdate? && w.before.Nothing? && IsWire(w) && Decodable(w, caches) && Holds(buf, at, Encode(w)[1..])
    ensures ReadUpdate(buf, at, caches.relations)
      == Got(Update(caches.relations[w.oid], None, None, Rows(w.row)), at + |Encode(w)| - 1)
  {
    hide ReadKnownRelation, ReadUint8, ReadTuple, Int32, RowBytes, Holds, IsInt32, IsRow;
    var tail := [0x4e] + RowBytes(w.row);
    assert Encode(w)[1..] == Int32(w.oid) + tail;
    Split(buf, at, Int32(w.oid), tail);
    KnownRelationBack(buf, at, w.oid, caches.relations);
    NewRowBack(buf, at + 4, |caches.relations[w.oid].columns|, w.row);
  }

  /** The submessage kind, the row it introduces, and the 'N' submessage after it. */
  lemma BeforeBack(buf: Bytes, at: nat, width: nat, kind: Byte, fields: seq<Field>, row: seq<Field>)
    requires IsRow(fields) && IsRow(row) && |fields| <= width && |row| <= width
    requires Holds(buf, at, [kind] + (RowBytes(fields) + ([0x4e] + RowBytes(row))))
    ensures var next := at + 1 + |RowBytes(fields)|;
      && ReadUint8(buf, at) == Got(kind, at + 1)
      && ReadTuple(buf, at + 1, width) == Got(Rows(fields), next)
      && ReadUint8(buf, next) == Got(0x4e, next + 1)
      && ReadTuple(buf, next + 1, width) == Got(Rows(row), next + 1 + |RowBytes(row)|)
  {
    hide ReadUint8, ReadTuple, RowBytes, Holds, IsRow;
    var tail := [0x4e] + RowBytes(row);
    Split(buf, at, [kind], RowBytes(fields) + tail);
    Split(buf, at + 1, RowBytes(fields), tail);
    ReadByte(buf, at, kind);
    ReadRowBack(buf, at + 1, width, fields);
    NewRowBack(buf, at + 1 + |RowBytes(fields)|, width, row);
  }

  lemma FullUpdateBack(buf: Bytes, at: nat, w: Wire, caches: Caches)
    requires w.WireUpdate? && !w.before.Nothing? && IsWire(w) && Decodable(w, caches) && Holds(buf, at, Encode(w)[1..])
    ensures ReadUpdate(buf, at, caches.relations)
      == Got(Update(caches.relations[w.oid], if w.before.Key? then Some(Rows(w.before.fields)) else None,
                    if w.before.Old? then Some(Rows(w.before.fields)) else None, Rows(w.row)), at + |Encode(w)| - 1)
  {
    hide ReadKnownRelation, ReadUint8, ReadTuple, Int32, RowBytes, Holds, IsInt32, IsRow;
    var kind: Byte := if w.before.Key? then 0x4b else 0x4f;
    var body := [kind] + (RowBytes(w.before.fields) + ([0x4e] + RowBytes(w.row)));
    assert Encode(w)[1..] == Int32(w.oid) + body;
    Split(buf, at, Int32(w.oid), body);
    KnownRelationBack(buf, at, w.oid, caches.relations);
    BeforeBack(buf, at + 4, |caches.relations[w.oid].columns|, kind, w.before.fields, w.row);
  }

  lemma TruncateParts(buf: Bytes, at: nat, options: Byte, oids: seq<int>, relations: map<int, Relation>)
    requires |oids| < 0x8000_0000 && forall i | 0 <= i < |oids| :: IsInt32(oids[i])
    requires Holds(buf, at, Int32(|oids|) + ([options] + OidsBytes(oids)))
    ensures ReadTruncate(buf, at, relations)
      == Got(Truncate(options % 2 == 1, options / 2 % 2 == 1, Known(oids, relations)), at + 5 + |OidsBytes(oids)|)
  {
    hide ReadInt32, ReadUint8, ReadRelationList, Int32, OidsBytes, Holds, Known;
    Split(buf, at, Int32(|oids|), [options] + OidsBytes(oids));
    Split(buf, at + 4, [options], OidsBytes(oids));
    ReadInt32Back(buf, at, |oids|);
    ReadByte(buf, at + 4, options);
    ReadOidsBack(buf, at + 5, oids, relations);
  }

  lemma TruncateBack(buf: Bytes, at: nat, w: Wire, relations: map<int, Relation>)
    requires w.WireTruncate? && IsWire(w) && Holds(buf, at, Encode(w)[1..])
    ensures ReadTruncate(buf, at, relations)
      == Got(Truncate(w.options % 2 == 1, w.options / 2 % 2 == 1, Known(w.oids, relations)), at + |Encode(w)| - 1)
  {
    hide ReadTruncate, Int32, OidsBytes, Holds, Known;
    assert Encode(w)[1..] == Int32(|w.oids|) + ([w.options] + OidsBytes(w.oids));
    TruncateParts(buf, at, w.options, w.oids, relations);
  }

  lemma LogicalParts(buf: Bytes, at: nat, flags: Byte, lsn: Lsn, prefix: Bytes, content: Bytes, utf8: Utf8)
    requires IsStr(prefix) && |content| < 0x8000_0000
    requires Holds(buf, at, [flags] + (LsnBytes(lsn) + (Str(prefix) + (Int32(|content|) + content))))
    ensures ReadLogical(buf, at, utf8)
      == Got(Logical(flags, flags % 2 == 1, LsnMeaning(lsn), utf8(prefix), content), at + 14 + |prefix| + |content|)
  {
    hide ReadLsn, ReadInt32, ReadUint8, ReadString, ReadBytes, Int32, LsnBytes, Holds, LsnMeaning, IsStr;
    var t3 := Int32(|content|) + content;
    var t2 := Str(prefix) + t3;
    Split(buf, at, [flags], LsnBytes(lsn) + t2);
    Split(buf, at + 1, LsnBytes(lsn), t2);
    Split(buf, at + 9, Str(prefix), t3);
    var a := at + 10 + |prefix|;
    Split(buf, a, Int32(|content|), content);
    ReadByte(buf, at, flags);
    ReadLsnBack(buf, at + 1, lsn);
    ReadStringBack(buf, at + 9, prefix, utf8);
    ReadInt32Back(buf, a, |content|);
    ReadBytesBack(buf, a + 4, content);
  }

  lemma LogicalBack(buf: Bytes, at: nat, w: Wire, utf8: Utf8)
    requires w.WireLogical? && IsWire(w) && Holds(buf, at, Encode(w)[1..])
    ensures ReadLogical(buf, at, utf8)
      == Got(Logical(w.flags, w.flags % 2 == 1, LsnMeaning(w.messageLsn), utf8(w.prefix), w.content),
             at + |Encode(w)| - 1)
  {
    hide ReadLogical, Int32, LsnBytes, Holds, LsnMeaning, IsStr;
    assert Encode(w)[1..] == [w.flags] + (LsnBytes(w.messageLsn) + (Str(w.prefix) + (Int32(|w.content|) + w.content)));
    LogicalParts(buf, at, w.flags, w.messageLsn, w.prefix, w.content, utf8);
  }

  function Tag(w: Wire): Byte
  {
    match w
    case WireBegin(_, _, _) => 0x42
    case WireCommit(_, _, _, _) => 0x43
    case WireOrigin(_, _) => 0x4f
    case WireType(_, _, _) => 0x59
    case WireRelation(_, _, _, _, _) => 0x52
    case WireInsert(_, _) => 0x49
    case WireUpdate(_, _, _) => 0x55
    case WireDelete(_, _) => 0x44
    case WireTruncate(_, _) => 0x54
    case WireLogical(_, _, _, _) => 0x4d
  }

  lemma EncodeTag(w: Wire)
    requires IsWire(w)
    ensures Encode(w) != [] && Encode(w)[0] == Tag(w)
  {
    hide IsWire, LsnBytes, Int64, Int32, RowBytes, ColumnsBytes, OidsBytes;
  }

  lemma AfterTag(w: Wire, caches: Caches, utf8: Utf8)
    requires IsWire(w)
    ensures Encode(w) != [] && Holds(Encode(w), 1, Encode(w)[1..])
    ensures ReadMessage(Encode(w), caches, utf8) == ReadBody(Tag(w), Encode(w), 1, caches, utf8)
  {
    EncodeTag(w);
    hide Encode, Tag, ReadBody, IsWire;
  }

  lemma RowMessageDecodes(w: Wire, caches: Caches, utf8: Utf8)
    requires IsWire(w) && Decodable(w, caches) && (w.WireInsert? || w.WireUpdate? || w.WireDelete?)
    ensures ReadMessage(Encode(w), caches, utf8) == Got(Meaning(w, caches, utf8), |Encode(w)|)
  {
    hide ReadMessage, Encode, IsWire, Holds, ReadInsert, ReadUpdate, ReadDelete;
    AfterTag(w, caches, utf8);
    match w
    case WireInsert(_, _) => InsertBack(Encode(w), 1, w, caches);
    case WireUpdate(_, before, _) =>
      if before.Nothing? { PlainUpdateBack(Encode(w), 1, w, caches); } else { FullUpdateBack(Encode(w), 1, w, caches); }
    case WireDelete(_, _) => DeleteBack(Encode(w), 1, w, caches);
  }

  lemma TypeDecodes(w: Wire, caches: Caches, utf8: Utf8)
    requires IsWire(w) && w.WireType?
    ensures ReadMessage(Encode(w), caches, utf8) == Got(Meaning(w, caches, utf8), |Encode(w)|)
  {
    hide ReadMessage, Encode, IsWire, Holds, ReadType;
    AfterTag(w, caches, utf8);
    TypeBack(Encode(w), 1, w, utf8);
  }

  lemma RelationDecodes(w: Wire, caches: Caches, utf8: Utf8)
    requires IsWire(w) && w.WireRelation?
    ensures ReadMessage(Encode(w), caches, utf8) == Got(Meaning(w, caches, utf8), |Encode(w)|)
  {
    hide ReadMessage, Encode, IsWire, Holds, ReadRelation, RelationMeaning;
    AfterTag(w, caches, utf8);
    RelationBack(Encode(w), 1, w, caches.types, utf8);
  }

  lemma TruncateDecodes(w: Wire, caches: Caches, utf8: Utf8)
    requires IsWire(w) && w.WireTruncate?
    ensures ReadMessage(Encode(w), caches, utf8) == Got(Meaning(w, caches, utf8), |Encode(w)|)
  {
    hide ReadMessage, Encode, IsWire, Holds, ReadTruncate, Known;
    AfterTag(w, caches, utf8);
    TruncateBack(Encode(w), 1, w, caches.relations);
  }

  lemma TransactionDecodes(w: Wire, caches: Caches, utf8: Utf8)
    requires IsWire(w) && (w.WireBegin? || w.WireCommit? || w.WireOrigin? || w.WireLogical?)
    ensures ReadMessage(Encode(w), caches, utf8) == Got(Meaning(w, caches, utf8), |Encode(w)|)
  {
    hide ReadMessage, Encode, Holds, ReadBegin, ReadOrigin, ReadLogical, ReadCommit, LsnMeaning, TimeMeaning, IsStr;
    AfterTag(w, caches, utf8);
    match w
    case WireBegin(_, _, _) => BeginBack(Encode(w), 1, w);
    case WireCommit(_, _, _, _) => CommitBack(Encode(w), 1, w);
    case WireOrigin(_, _) => OriginBack(Encode(w), 1, w, utf8);
    case WireLogical(_, _, _, _) => LogicalBack(Encode(w), 1, w, utf8);
  }

  /** Every message of the format decodes to what it means, and the whole buffer is consumed. */
  lemma DecodesEncoding(w: Wire, caches: Caches, utf8: Utf8)
    requires IsWire(w) && Decodable(w, caches)
    ensures ReadMessage(Encode(w), caches, utf8) == Got(Meaning(w, caches, utf8), |Encode(w)|)
  {
    hide ReadMessage, Encode, Meaning, IsWire, Decodable;
    if w.WireInsert? || w.WireUpdate? || w.WireDelete? {
      RowMessageDecodes(w, caches, utf8);
    } else if w.WireType? {
      TypeDecodes(w, caches, utf8);
    } else if w.WireRelation? {
      RelationDecodes(w, caches, utf8);
    } else if w.WireTruncate? {
      TruncateDecodes(w, caches, utf8);
    } else {
      TransactionDecodes(w, caches, utf8);
    }
  }

  // ----- Streams ---------------------------------------------------------------------------------

  /** The caches after the first `n` messages of a stream. */
  function CachesAt(stream: seq<Wire>, n: nat, utf8: Utf8): Caches
    requires n <= |stream| && forall i | 0 <= i < n :: IsWire(stream[i])
    decreases n
  {
    if n == 0 then EMPTY
    else
      var before := CachesAt(stream, n - 1, utf8);
      if Decodable(stream[n - 1], before) then Remember(before, Meaning(stream[n - 1], before, utf8)) else before
  }

  /** Every row message follows the Relation message of its relation and fits it. */
  predicate WellFormed(stream: seq<Wire>, utf8: Utf8)
  {
    && (forall i | 0 <= i < |stream| :: IsWire(stream[i]))
    && (forall i | 0 <= i < |stream| :: Decodable(stream[i], CachesAt(stream, i, utf8)))
  }

  /** Along a well-formed stream the decoder returns every message, consumes every buffer, and hands
      its caches on. */
  lemma StreamDecodes(stream: seq<Wire>, utf8: Utf8, i: nat)
    requires WellFormed(stream, utf8) && i < |stream|
    ensures var caches := CachesAt(stream, i, utf8);
      && Parse(Encode(stream[i]), caches, utf8)
        == Got(ToObjects(Meaning(stream[i], caches, utf8), utf8), |Encode(stream[i])|)
      && CachesAt(stream, i + 1, utf8) == Remember(caches, Meaning(stream[i], caches, utf8))
  {
    hide IsWire, Encode, ReadMessage, Meaning, ToObjects;
    DecodesEncoding(stream[i], CachesAt(stream, i, utf8), utf8);
  }

  /** `j` is the latest Relation message for `oid` among the first `n`. */
  predicate IsLatest(stream: seq<Wire>, n: nat, oid: int, j: nat)
    requires n <= |stream|
  {
    && j < n && stream[j].WireRelation? && stream[j].oid == oid
    && forall k | j < k < n :: !(stream[k].WireRelation? && stream[k].oid == oid)
  }

  lemma {:induction false} CacheHoldsLatest(stream: seq<Wire>, n: nat, utf8: Utf8, oid: int) returns (j: nat)
    requires n <= |stream| && forall i | 0 <= i < n :: IsWire(stream[i])
    requires oid in CachesAt(stream, n, utf8).relations
    ensures IsLatest(stream, n, oid, j)
    ensures CachesAt(stream, n, utf8).relations[oid]
      == RelationMeaning(stream[j], CachesAt(stream, j, utf8).types, utf8)
    decreases n
  {
    hide IsWire, RelationMeaning;
    if stream[n - 1].WireRelation? && stream[n - 1].oid == oid {
      j := n - 1;
      RelationOid(stream[j], CachesAt(stream, j, utf8).types, utf8);
    } else {
      OtherOids(stream, n, utf8, oid);
      j := CacheHoldsLatest(stream, n - 1, utf8, oid);
    }
  }

  lemma RelationOid(w: Wire, types: map<int, TypeInfo>, utf8: Utf8)
    requires w.WireRelation?
    ensures RelationMeaning(w, types, utf8).oid == w.oid
  {
  }

  lemma OtherOids(stream: seq<Wire>, n: nat, utf8: Utf8, oid: int)
    requires 0 < n <= |stream| && forall i | 0 <= i < n :: IsWire(stream[i])
    requires !(stream[n - 1].WireRelation? && stream[n - 1].oid == oid)
    ensures oid in CachesAt(stream, n, utf8).relations <==> oid in CachesAt(stream, n - 1, utf8).relations
    ensures oid in CachesAt(stream, n, utf8).relations ==>
      CachesAt(stream, n, utf8).relations[oid] == CachesAt(stream, n - 1, utf8).relations[oid]
  {
    hide IsWire, LsnMeaning, TimeMeaning, Known;
  }

  /** Each row is decoded with the most recent Relation message for its oid. */
  lemma RowUsesLatestRelation(stream: seq<Wire>, utf8: Utf8, i: nat) returns (j: nat)
    requires WellFormed(stream, utf8) && i < |stream|
    requires stream[i].WireInsert? || stream[i].WireUpdate? || stream[i].WireDelete?
    ensures IsLatest(stream, i, stream[i].oid, j)
    ensures var r := Parse(Encode(stream[i]), CachesAt(stream, i, utf8), utf8);
      r.Got? && (r.value.Insert? || r.value.Update? || r.value.Delete?)
      && r.value.relation == RelationMeaning(stream[j], CachesAt(stream, j, utf8).types, utf8)
  {
    hide IsWire, Encode, Parse, RelationMeaning, Row, KeyRow, CachesAt, ReadMessage;
    StreamDecodes(stream, utf8, i);
    j := CacheHoldsLatest(stream, i, utf8, stream[i].oid);
  }

  // ----- The texts the decoder makes up ----------------------------------------------------------

  /**
   Object and transaction identifiers are unsigned 32-bit numbers on the wire. The decoder reads them as signed
   ones: an identifier comes out as itself exactly below 2^31, and different ones never come out alike.
   */
  lemma IdentifierExact(buf: Bytes, at: int, u: int, v: int)
    requires 0 <= u < 0x1_0000_0000 && 0 <= v < 0x1_0000_0000 && Holds(buf, at, Be32(u))
    ensures Int32(Signed(u, 0x1_0000_0000)) == Be32(u)
    ensures ReadInt32(buf, at) == Got(Signed(u, 0x1_0000_0000), at + 4)
    ensures ReadInt32(buf, at) == Got(u, at + 4) <==> u < 0x8000_0000
    ensures Signed(u, 0x1_0000_0000) == Signed(v, 0x1_0000_0000) <==> u == v
  {
    hide Be32;
    ReadBe32(buf, at, u);
  }

  /** A commit time is right exactly for timestamps from 2000 on: earlier ones are read as unsigned. */
  lemma TimeExact(timestamp: int)
    requires IsInt64(timestamp)
    ensures TimeMeaning(timestamp) == timestamp + POSTGRES_EPOCH_MICROS <==> timestamp >= 0
  {
  }

  lemma {:induction false} HexInjective(a: int, b: int, digits: nat)
    requires 0 <= a && 0 <= b && Hex(a, digits) == Hex(b, digits)
    requires a < Power16(digits) && b < Power16(digits)
    ensures a == b
    decreases digits
  {
    if digits > 0 {
      var s, t := Hex(a, digits), Hex(b, digits);
      assert s[..digits - 1] == Hex(a / 16, digits - 1) && t[..digits - 1] == Hex(b / 16, digits - 1);
      assert s[digits - 1] == HexDigit(a % 16) && t[digits - 1] == HexDigit(b % 16);
      HexInjective(a / 16, b / 16, digits - 1);
    }
  }

  function Power16(n: nat): nat { if n == 0 then 1 else 16 * Power16(n - 1) }

  /** Different positions in the log have different texts; only position zero has none. */
  lemma LsnTextInjective(x: Lsn, y: Lsn)
    requires LsnMeaning(x) == LsnMeaning(y)
    ensures x == y
  {
    var xu, xl, yu, yl := x / 0x1_0000_0000, x % 0x1_0000_0000, y / 0x1_0000_0000, y % 0x1_0000_0000;
    if LsnMeaning(x).Some? {
      var s := Hex(xu, 8) + "/" + Hex(xl, 8);
      assert s == Hex(yu, 8) + "/" + Hex(yl, 8);
      assert s[..8] == Hex(xu, 8) == Hex(yu, 8);
      assert s[9..] == Hex(xl, 8) == Hex(yl, 8);
      hide Hex, LsnText;
      assert Power16(8) == 0x1_0000_0000;
      HexInjective(xu, yu, 8);
      HexInjective(xl, yl, 8);
    }
  }
}
