/**
 The logical replication decoder (section 55.9 of the PostgreSQL 16 documentation, Logical
 Replication Message Formats): binary reads, relation and type caches, row messages.

 This module is the specification: what each message decodes to, for every buffer, including the
 ones no server sends. UTF-8 decoding is a parameter; a text value is kept as the type whose parser
 applies to it together with its text.
 */
module Pgoutput {
  import opened Results

  type Bytes = seq<Byte>

  datatype Error =
    | OutOfRange | NoTerminator | UnknownMessage | UnknownIdentity | MissingRelation
    | UnknownSubmessage | UnknownAttribute | MissingColumn

  /** A read returns a value and the offset after it, or throws. */
  datatype Read<+T> = Got(value: T, offset: int) | Failed(error: Error)

  // ----- Binary reads ----------------------------------------------------------------------------

  function Signed(u: int, modulus: int): int { if 2 * u >= modulus then u - modulus else u }

  function ReadUint8(buf: Bytes, at: int): Read<int>
  {
    if 0 <= at < |buf| then Got(buf[at], at + 1) else Failed(OutOfRange)
  }

  function ReadInt16(buf: Bytes, at: int): Read<int>
  {
    if 0 <= at && at + 2 <= |buf| then
      var high: int, low: int := buf[at], buf[at + 1];
      Got(Signed(high * 0x100 + low, 0x1_0000), at + 2)
    else Failed(OutOfRange)
  }

  function Uint32At(buf: Bytes, at: int): (u: int)
    requires 0 <= at && at + 4 <= |buf|
    ensures 0 <= u < 0x1_0000_0000
  {
    var b0: int, b1: int, b2: int, b3: int := buf[at], buf[at + 1], buf[at + 2], buf[at + 3];
    b0 * 0x100_0000 + b1 * 0x1_0000 + b2 * 0x100 + b3
  }

  function ReadInt32(buf: Bytes, at: int): Read<int>
  {
    if 0 <= at && at + 4 <= |buf| then Got(Signed(Uint32At(buf, at), 0x1_0000_0000), at + 4)
    else Failed(OutOfRange)
  }

  /** `readInt32() >>> 0` */
  function ReadUint32(buf: Bytes, at: int): Read<int>
  {
    match ReadInt32(buf, at)
    case Failed(e) => Failed(e)
    case Got(v, next) => Got(if v < 0 then v + 0x1_0000_0000 else v, next)
  }

  function ReadUint64(buf: Bytes, at: int): Read<int>
  {
    match ReadUint32(buf, at)
    case Failed(e) => Failed(e)
    case Got(high, middle) =>
      match ReadUint32(buf, middle)
      case Failed(e) => Failed(e)
      case Got(low, next) => Got(high * 0x1_0000_0000 + low, next)
  }

  const POSTGRES_EPOCH_MICROS := 946_684_800_000_000

  /** Microseconds since the Unix epoch; the stored value is read as unsigned. */
  function ReadTime(buf: Bytes, at: int): Read<int>
  {
    match ReadUint64(buf, at)
    case Failed(e) => Failed(e)
    case Got(v, next) => Got(v + POSTGRES_EPOCH_MICROS, next)
  }

  function HexDigit(d: int): char
    requires 0 <= d < 16
  {
    if d < 10 then ('0' as int + d) as char else ('A' as int + d - 10) as char
  }

  /** Eight upper-case hexadecimal digits, zero-padded. */
  function Hex(u: int, digits: nat): (s: string)
    requires 0 <= u
    ensures |s| == digits
    decreases digits
  {
    if digits == 0 then "" else Hex(u / 16, digits - 1) + [HexDigit(u % 16)]
  }

  function LsnText(upper: int, lower: int): Option<string>
    requires 0 <= upper && 0 <= lower
  {
    if upper == 0 && lower == 0 then None else Some(Hex(upper, 8) + "/" + Hex(lower, 8))
  }

  function ReadLsn(buf: Bytes, at: int): Read<Option<string>>
  {
    match ReadUint32(buf, at)
    case Failed(e) => Failed(e)
    case Got(upper, middle) =>
      match ReadUint32(buf, middle)
      case Failed(e) => Failed(e)
      case Got(lower, next) => Got(LsnText(upper, lower), next)
  }

  /** `indexOf(0, at)`: the first zero byte at or after `at`. */
  function FindZero(buf: Bytes, at: nat): (r: int)
    ensures r == -1 || at <= r < |buf|
    ensures r != -1 ==> buf[r] == 0 && forall i | at <= i < r :: buf[i] != 0
    ensures r == -1 ==> forall i | at <= i < |buf| :: buf[i] != 0
    decreases |buf| - at
  {
    if at >= |buf| then -1 else if buf[at] == 0 then at else FindZero(buf, at + 1)
  }

  type Utf8 = Bytes -> string

  function ReadString(buf: Bytes, at: nat, utf8: Utf8): Read<string>
  {
    var end := FindZero(buf, at);
    if end == -1 then Failed(NoTerminator) else Got(utf8(buf[at..end]), end + 1)
  }

  function Clamp(x: int, length: nat): nat
  {
    if x < 0 then (if length + x < 0 then 0 else length + x) else if x > length then length else x
  }

  /** `subarray(start, end)`: bounds are clamped, and negative ones count from the end. */
  function Subarray(buf: Bytes, start: int, end: int): Bytes
  {
    var s, e := Clamp(start, |buf|), Clamp(end, |buf|);
    if s <= e then buf[s..e] else []
  }

  /** `read(len)` never fails: it returns what there is and moves the offset by `len`. */
  function ReadBytes(buf: Bytes, at: int, len: int): Read<Bytes> { Got(Subarray(buf, at, at + len), at + len) }

  // ----- Relations -------------------------------------------------------------------------------

  datatype ReplicaIdentity = DefaultIdentity | NothingIdentity | FullIdentity | IndexIdentity

  datatype Column = Column(
    flags: int, name: string, typeOid: int, typeMod: int, typeSchema: Option<string>, typeName: Option<string>)

  datatype Relation = Relation(
    oid: int, schema: string, name: string, identity: ReplicaIdentity, columns: seq<Column>, keyColumns: seq<string>)

  datatype TypeInfo = TypeInfo(schema: string, name: string)

  datatype Caches = Caches(types: map<int, TypeInfo>, relations: map<int, Relation>)

  const EMPTY := Caches(map[], map[])

  function MakeColumn(types: map<int, TypeInfo>, flags: int, name: string, typeOid: int, typeMod: int): Column
  {
    if typeOid in types then Column(flags, name, typeOid, typeMod, Some(types[typeOid].schema),
                                    Some(types[typeOid].name))
    else Column(flags, name, typeOid, typeMod, None, None)
  }

  function ReadColumn(buf: Bytes, at: nat, types: map<int, TypeInfo>, utf8: Utf8): (r: Read<Column>)
    ensures r.Got? ==> r.offset > at
  {
    match ReadUint8(buf, at)
    case Failed(e) => Failed(e)
    case Got(flags, a1) =>
      match ReadString(buf, a1, utf8)
      case Failed(e) => Failed(e)
      case Got(name, a2) =>
        match ReadInt32(buf, a2)
        case Failed(e) => Failed(e)
        case Got(typeOid, a3) =>
          match ReadInt32(buf, a3)
          case Failed(e) => Failed(e)
          case Got(typeMod, a4) => Got(MakeColumn(types, flags, name, typeOid, typeMod), a4)
  }

  function ReadColumns(buf: Bytes, at: nat, count: int, types: map<int, TypeInfo>, utf8: Utf8): (r: Read<seq<Column>>)
    ensures r.Got? ==> r.offset >= at
    decreases if count < 0 then 0 else count
  {
    if count <= 0 then Got([], at) else
    match ReadColumn(buf, at, types, utf8)
    case Failed(e) => Failed(e)
    case Got(column, next) =>
      match ReadColumns(buf, next, count - 1, types, utf8)
      case Failed(e) => Failed(e)
      case Got(rest, end) => Got([column] + rest, end)
  }

  /** The names of the columns whose key flag is set, in column order. */
  function KeyColumns(columns: seq<Column>): seq<string>
  {
    if columns == [] then []
    else (if columns[0].flags % 2 == 1 then [columns[0].name] else []) + KeyColumns(columns[1..])
  }

  function IdentityOf(b: int): Read<ReplicaIdentity>
  {
    if b == 0x64 then Got(DefaultIdentity, 0) else if b == 0x6e then Got(NothingIdentity, 0)
    else if b == 0x66 then Got(FullIdentity, 0) else if b == 0x69 then Got(IndexIdentity, 0)
    else Failed(UnknownIdentity)
  }

  function ReadRelation(buf: Bytes, at: nat, types: map<int, TypeInfo>, utf8: Utf8): Read<Relation>
  {
    match ReadInt32(buf, at)
    case Failed(e) => Failed(e)
    case Got(oid, a1) =>
      match ReadString(buf, a1, utf8)
      case Failed(e) => Failed(e)
      case Got(schema, a2) =>
        match ReadString(buf, a2, utf8)
        case Failed(e) => Failed(e)
        case Got(name, a3) =>
          match ReadUint8(buf, a3)
          case Failed(e) => Failed(e)
          case Got(ident, a4) =>
            match IdentityOf(ident)
            case Failed(e) => Failed(e)
            case Got(identity, _) =>
              match ReadInt16(buf, a4)
              case Failed(e) => Failed(e)
              case Got(count, a5) =>
                match ReadColumns(buf, a5, count, types, utf8)
                case Failed(e) => Failed(e)
                case Got(columns, a6) => Got(Relation(oid, schema, name, identity, columns, KeyColumns(columns)), a6)
  }

  // ----- Tuples ----------------------------------------------------------------------------------

  datatype Field = BinaryField(bytes: Bytes) | TextField(bytes: Bytes) | NullField | UnchangedField

  /** The count on the wire and the fields that were read: none when the count is negative. */
  datatype Tuple = Tuple(count: int, fields: seq<Field>)

  function ReadField(buf: Bytes, at: int): Read<Field>
  {
    match ReadUint8(buf, at)
    case Failed(e) => Failed(e)
    case Got(kind, a1) =>
      if kind == 0x6e then Got(NullField, a1)
      else if kind == 0x75 then Got(UnchangedField, a1)
      else if kind != 0x62 && kind != 0x74 then Failed(UnknownAttribute) else
      match ReadInt32(buf, a1)
      case Failed(e) => Failed(e)
      case Got(size, a2) =>
        match ReadBytes(buf, a2, size)
        case Failed(e) => Failed(e)
        case Got(bytes, a3) => Got(if kind == 0x62 then BinaryField(bytes) else TextField(bytes), a3)
  }

  /** `done` fields are read; a field beyond the relation's columns has no column to read from. */
  function ReadFields(buf: Bytes, at: int, width: nat, count: int, done: nat): (r: Read<seq<Field>>)
    ensures r.Got? && done <= count ==> |r.value| == count - done && (done < count ==> count <= width)
    decreases if count < done then 0 else count - done
  {
    if done >= count then Got([], at)
    else if done >= width then Failed(MissingColumn) else
    match ReadField(buf, at)
    case Failed(e) => Failed(e)
    case Got(field, next) =>
      match ReadFields(buf, next, width, count, done + 1)
      case Failed(e) => Failed(e)
      case Got(rest, end) => Got([field] + rest, end)
  }

  function ReadTuple(buf: Bytes, at: int, width: nat): (r: Read<Tuple>)
    ensures r.Got? ==> |r.value.fields| <= width && |r.value.fields| == if r.value.count < 0 then 0 else r.value.count
  {
    match ReadInt16(buf, at)
    case Failed(e) => Failed(e)
    case Got(count, a1) =>
      match ReadFields(buf, a1, width, count, 0)
      case Failed(e) => Failed(e)
      case Got(fields, a2) => Got(Tuple(count, fields), a2)
  }

  // ----- Messages --------------------------------------------------------------------------------

  /** `T` is how rows are presented. */
  datatype Message<+T> =
    | Begin(commitLsn: Option<string>, commitTime: int, xid: int)
    | Commit(flags: int, lsn: Option<string>, endLsn: Option<string>, time: int)
    | Origin(originLsn: Option<string>, originName: string)
    | TypeMessage(typeOid: int, typeInfo: TypeInfo)
    | RelationMessage(defined: Relation)
    | Insert(relation: Relation, newRow: T)
    | Update(relation: Relation, key: Option<T>, oldRow: Option<T>, newRow: T)
    | Delete(relation: Relation, key: Option<T>, oldRow: Option<T>)
    | Truncate(cascade: bool, restartIdentity: bool, relations: seq<Option<Relation>>)
    | Logical(flags: int, transactional: bool, messageLsn: Option<string>, prefix: string, content: Bytes)

  function ReadBegin(buf: Bytes, at: nat): Read<Message<Tuple>>
  {
    match ReadLsn(buf, at)
    case Failed(e) => Failed(e)
    case Got(lsn, a1) =>
      match ReadTime(buf, a1)
      case Failed(e) => Failed(e)
      case Got(time, a2) =>
        match ReadInt32(buf, a2)
        case Failed(e) => Failed(e)
        case Got(xid, a3) => Got(Begin(lsn, time, xid), a3)
  }

  function ReadCommit(buf: Bytes, at: nat): Read<Message<Tuple>>
  {
    match ReadUint8(buf, at)
    case Failed(e) => Failed(e)
    case Got(flags, a1) =>
      match ReadLsn(buf, a1)
      case Failed(e) => Failed(e)
      case Got(lsn, a2) =>
        match ReadLsn(buf, a2)
        case Failed(e) => Failed(e)
        case Got(endLsn, a3) =>
          match ReadTime(buf, a3)
          case Failed(e) => Failed(e)
          case Got(time, a4) => Got(Commit(flags, lsn, endLsn, time), a4)
  }

  function ReadOrigin(buf: Bytes, at: nat, utf8: Utf8): Read<Message<Tuple>>
  {
    match ReadLsn(buf, at)
    case Failed(e) => Failed(e)
    case Got(lsn, a1) =>
      match ReadString(buf, a1, utf8)
      case Failed(e) => Failed(e)
      case Got(name, a2) => Got(Origin(lsn, name), a2)
  }

  function ReadType(buf: Bytes, at: nat, utf8: Utf8): Read<Message<Tuple>>
  {
    match ReadInt32(buf, at)
    case Failed(e) => Failed(e)
    case Got(oid, a1) =>
      match ReadString(buf, a1, utf8)
      case Failed(e) => Failed(e)
      case Got(schema, a2) =>
        match ReadString(buf, a2, utf8)
        case Failed(e) => Failed(e)
        case Got(name, a3) => Got(TypeMessage(oid, TypeInfo(schema, name)), a3)
  }

  /** The relation oid that opens every row message. */
  function ReadKnownRelation(buf: Bytes, at: nat, relations: map<int, Relation>): Read<Relation>
  {
    match ReadInt32(buf, at)
    case Failed(e) => Failed(e)
    case Got(oid, a1) => if oid in relations then Got(relations[oid], a1) else Failed(MissingRelation)
  }

  function ReadInsert(buf: Bytes, at: nat, relations: map<int, Relation>): Read<Message<Tuple>>
  {
    match ReadKnownRelation(buf, at, relations)
    case Failed(e) => Failed(e)
    case Got(relation, a1) =>
      match ReadUint8(buf, a1)
      case Failed(e) => Failed(e)
      case Got(_, a2) =>
        match ReadTuple(buf, a2, |relation.columns|)
        case Failed(e) => Failed(e)
        case Got(row, a3) => Got(Insert(relation, row), a3)
  }

  function ReadUpdate(buf: Bytes, at: nat, relations: map<int, Relation>): Read<Message<Tuple>>
  {
    match ReadKnownRelation(buf, at, relations)
    case Failed(e) => Failed(e)
    case Got(relation, a1) =>
      var width := |relation.columns|;
      match ReadUint8(buf, a1)
      case Failed(e) => Failed(e)
      case Got(kind, a2) =>
        if kind == 0x4e then
          match ReadTuple(buf, a2, width)
          case Failed(e) => Failed(e)
          case Got(row, a3) => Got(Update(relation, None, None, row), a3)
        else if kind == 0x4b || kind == 0x4f then
          match ReadTuple(buf, a2, width)
          case Failed(e) => Failed(e)
          case Got(before, a3) =>
            match ReadUint8(buf, a3)
            case Failed(e) => Failed(e)
            case Got(_, a4) =>
              match ReadTuple(buf, a4, width)
              case Failed(e) => Failed(e)
              case Got(row, a5) =>
                Got(if kind == 0x4b then Update(relation, Some(before), None, row)
                    else Update(relation, None, Some(before), row), a5)
        else Failed(UnknownSubmessage)
  }

  function ReadDelete(buf: Bytes, at: nat, relations: map<int, Relation>): Read<Message<Tuple>>
  {
    match ReadKnownRelation(buf, at, relations)
    case Failed(e) => Failed(e)
    case Got(relation, a1) =>
      match ReadUint8(buf, a1)
      case Failed(e) => Failed(e)
      case Got(kind, a2) =>
        if kind != 0x4b && kind != 0x4f then Failed(UnknownSubmessage) else
        match ReadTuple(buf, a2, |relation.columns|)
        case Failed(e) => Failed(e)
        case Got(row, a3) =>
          Got(if kind == 0x4b then Delete(relation, Some(row), None) else Delete(relation, None, Some(row)), a3)
  }

  function ReadRelationList(buf: Bytes, at: nat, count: int, relations: map<int, Relation>): Read<seq<Option<Relation>>>
    decreases if count < 0 then 0 else count
  {
    if count <= 0 then Got([], at) else
    match ReadInt32(buf, at)
    case Failed(e) => Failed(e)
    case Got(oid, next) =>
      match ReadRelationList(buf, next, count - 1, relations)
      case Failed(e) => Failed(e)
      case Got(rest, end) => Got([if oid in relations then Some(relations[oid]) else None] + rest, end)
  }

  function ReadTruncate(buf: Bytes, at: nat, relations: map<int, Relation>): Read<Message<Tuple>>
  {
    match ReadInt32(buf, at)
    case Failed(e) => Failed(e)
    case Got(count, a1) =>
      match ReadUint8(buf, a1)
      case Failed(e) => Failed(e)
      case Got(flags, a2) =>
        match ReadRelationList(buf, a2, count, relations)
        case Failed(e) => Failed(e)
        case Got(list, a3) => Got(Truncate(flags % 2 == 1, flags / 2 % 2 == 1, list), a3)
  }

  function ReadLogical(buf: Bytes, at: nat, utf8: Utf8): Read<Message<Tuple>>
  {
    match ReadUint8(buf, at)
    case Failed(e) => Failed(e)
    case Got(flags, a1) =>
      match ReadLsn(buf, a1)
      case Failed(e) => Failed(e)
      case Got(lsn, a2) =>
        match ReadString(buf, a2, utf8)
        case Failed(e) => Failed(e)
        case Got(prefix, a3) =>
          match ReadInt32(buf, a3)
          case Failed(e) => Failed(e)
          case Got(size, a4) =>
            match ReadBytes(buf, a4, size)
            case Failed(e) => Failed(e)
            case Got(content, a5) => Got(Logical(flags, flags % 2 == 1, lsn, prefix, content), a5)
  }

  function ReadRelationMessage(buf: Bytes, at: nat, types: map<int, TypeInfo>, utf8: Utf8): Read<Message<Tuple>>
  {
    match ReadRelation(buf, at, types, utf8)
    case Failed(e) => Failed(e)
    case Got(relation, a1) => Got(RelationMessage(relation), a1)
  }

  /** The message body that follows a tag byte. */
  function ReadBody(tag: int, buf: Bytes, at: nat, caches: Caches, utf8: Utf8): Read<Message<Tuple>>
  {
    if tag == 0x42 then ReadBegin(buf, at)
    else if tag == 0x4f then ReadOrigin(buf, at, utf8)
    else if tag == 0x59 then ReadType(buf, at, utf8)
    else if tag == 0x52 then ReadRelationMessage(buf, at, caches.types, utf8)
    else if tag == 0x49 then ReadInsert(buf, at, caches.relations)
    else if tag == 0x55 then ReadUpdate(buf, at, caches.relations)
    else if tag == 0x44 then ReadDelete(buf, at, caches.relations)
    else if tag == 0x54 then ReadTruncate(buf, at, caches.relations)
    else if tag == 0x4d then ReadLogical(buf, at, utf8)
    else if tag == 0x43 then ReadCommit(buf, at)
    else Failed(UnknownMessage)
  }

  /** One message, with its rows as the fields on the wire. */
  function ReadMessage(buf: Bytes, caches: Caches, utf8: Utf8): Read<Message<Tuple>>
  {
    match ReadUint8(buf, 0)
    case Failed(e) => Failed(e)
    case Got(tag, at) => ReadBody(tag, buf, at, caches, utf8)
  }

  /** Type and Relation messages are remembered; a failed parse remembers nothing. */
  function Remember<T>(caches: Caches, m: Message<T>): Caches
  {
    match m
    case TypeMessage(oid, info) => caches.(types := caches.types[oid := info])
    case RelationMessage(relation) => caches.(relations := caches.relations[relation.oid := relation])
    case _ => caches
  }

  // ----- The two presentations of a row ----------------------------------------------------------

  datatype Value = Null | Undefined | Raw(bytes: Bytes) | Parsed(typeOid: int, text: string)

  type Object = map<string, Value>

  type Array = seq<Value>

  function Lookup(o: Object, name: string): Value { if name in o then o[name] else Undefined }

  function At(a: Array, i: nat): Value { if i < |a| then a[i] else Undefined }

  /** A field as a value, given what an unchanged one stands for. */
  function ValueOf(field: Field, column: Column, kept: Value, utf8: Utf8): Value
  {
    match field
    case BinaryField(bytes) => Raw(bytes)
    case TextField(bytes) => Parsed(column.typeOid, utf8(bytes))
    case NullField => Null
    case UnchangedField => kept
  }

  /** The object after the first `n` fields: a later column of the same name overwrites an earlier one. */
  function ObjectOf(columns: seq<Column>, fields: seq<Field>, n: nat, fallback: Object, utf8: Utf8): Object
    requires n <= |fields| <= |columns|
  {
    if n == 0 then map[]
    else ObjectOf(columns, fields, n - 1, fallback, utf8)
      [columns[n - 1].name := ValueOf(fields[n - 1], columns[n - 1], Lookup(fallback, columns[n - 1].name), utf8)]
  }

  function ArrayOf(columns: seq<Column>, fields: seq<Field>, n: nat, fallback: Array, utf8: Utf8): (a: Array)
    requires n <= |fields| <= |columns|
    ensures |a| == n
    ensures forall i | 0 <= i < n :: a[i] == ValueOf(fields[i], columns[i], At(fallback, i), utf8)
  {
    seq(n, i requires 0 <= i < n => ValueOf(fields[i], columns[i], At(fallback, i), utf8))
  }

  function Row(relation: Relation, t: Tuple, fallback: Object, utf8: Utf8): Object
  {
    if |t.fields| <= |relation.columns| then ObjectOf(relation.columns, t.fields, |t.fields|, fallback, utf8) else map[]
  }

  function RowArray(relation: Relation, t: Tuple, fallback: Array, utf8: Utf8): Array
  {
    if |t.fields| <= |relation.columns| then ArrayOf(relation.columns, t.fields, |t.fields|, fallback, utf8) else []
  }

  /** The key columns of a row, with null presented as undefined. */
  function KeyValue(row: Object, name: string): Value
  {
    if Lookup(row, name) == Null then Undefined else Lookup(row, name)
  }

  function KeyRow(relation: Relation, row: Object): Object
  {
    map name | name in relation.keyColumns :: KeyValue(row, name)
  }

  function Recast<S, T>(m: Message<S>): Message<T>
    requires !m.Insert? && !m.Update? && !m.Delete?
  {
    match m
    case Begin(lsn, time, xid) => Begin(lsn, time, xid)
    case Commit(flags, lsn, endLsn, time) => Commit(flags, lsn, endLsn, time)
    case Origin(lsn, name) => Origin(lsn, name)
    case TypeMessage(oid, info) => TypeMessage(oid, info)
    case RelationMessage(relation) => RelationMessage(relation)
    case Truncate(cascade, restart, relations) => Truncate(cascade, restart, relations)
    case Logical(flags, transactional, lsn, prefix, content) => Logical(flags, transactional, lsn, prefix, content)
  }

  /** What `parse` returns. */
  function ToObjects(m: Message<Tuple>, utf8: Utf8): Message<Object>
  {
    match m
    case Insert(r, row) => Insert(r, Row(r, row, map[], utf8))
    case Update(r, key, before, row) =>
      if key.Some? then Update(r, Some(KeyRow(r, Row(r, key.value, map[], utf8))), None, Row(r, row, map[], utf8))
      else if before.Some? then
        var old_ := Row(r, before.value, map[], utf8);
        Update(r, None, Some(old_), Row(r, row, old_, utf8))
      else Update(r, None, None, Row(r, row, map[], utf8))
    case Delete(r, key, before) =>
      Delete(r, if key.Some? then Some(KeyRow(r, Row(r, key.value, map[], utf8))) else None,
             if before.Some? then Some(Row(r, before.value, map[], utf8)) else None)
    case _ => Recast(m)
  }

  /** What `parseArray` returns. */
  function ToArrays(m: Message<Tuple>, utf8: Utf8): Message<Array>
  {
    match m
    case Insert(r, row) => Insert(r, RowArray(r, row, [], utf8))
    case Update(r, key, before, row) =>
      if key.Some? then Update(r, Some(RowArray(r, key.value, [], utf8)), None, RowArray(r, row, [], utf8))
      else if before.Some? then
        var old_ := RowArray(r, before.value, [], utf8);
        Update(r, None, Some(old_), RowArray(r, row, old_, utf8))
      else Update(r, None, None, RowArray(r, row, [], utf8))
    case Delete(r, key, before) =>
      Delete(r, if key.Some? then Some(RowArray(r, key.value, [], utf8)) else None,
             if before.Some? then Some(RowArray(r, before.value, [], utf8)) else None)
    case _ => Recast(m)
  }

  /** `new Array(count)` throws when the count is negative; the object decoder then reads no field. */
  predicate Countable(m: Message<Tuple>)
  {
    match m
    case Insert(_, row) => row.count >= 0
    case Update(_, key, before, row) =>
      (key.Some? ==> key.value.count >= 0) && (before.Some? ==> before.value.count >= 0) && row.count >= 0
    case Delete(_, key, before) => (key.Some? ==> key.value.count >= 0) && (before.Some? ==> before.value.count >= 0)
    case _ => true
  }

  /** `parse`, and the caches it leaves. */
  function Parse(buf: Bytes, caches: Caches, utf8: Utf8): Read<Message<Object>>
  {
    match ReadMessage(buf, caches, utf8)
    case Failed(e) => Failed(e)
    case Got(m, offset) => Got(ToObjects(m, utf8), offset)
  }

  function ParseArray(buf: Bytes, caches: Caches, utf8: Utf8): Read<Message<Array>>
  {
    match ReadMessage(buf, caches, utf8)
    case Failed(e) => Failed(e)
    case Got(m, offset) => if Countable(m) then Got(ToArrays(m, utf8), offset) else Failed(OutOfRange)
  }
}
