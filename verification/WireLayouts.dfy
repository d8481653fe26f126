/** What stands where in a message: layouts in explicit bytes, as section 55.7 of the PostgreSQL 16 documentation lists them. */
module WireLayouts {
  import opened Options
  import opened WireBytes
  import opened WireOrder
  import opened Framing
  import BindMessage
  import RowDescriptionMessage
  import StartupMessages
  import ErrorResponses
  import Decimal
  import MapOrder

  lemma Counted(n: nat)
    requires n <= 0xff
    ensures PutUint16(n) == [0, n] && PutInt16(n) == [0, n] && PutInt32(n) == [0, 0, 0, n]
  {
  }

  /** An empty data row, complete. */
  lemma EmptyRowFrame()
    ensures Framed([], 0x44, PutCountedCells([])) == Encoded([0x44, 0, 0, 0, 6, 0, 0])
  {
    Counted(0);
    Counted(6);
    assert PutCountedCells([]) == [0, 0];
    assert Frame(0x44, [0, 0]) == [0x44, 0, 0, 0, 6, 0, 0];
  }

  /** A row of three columns: one byte, NULL, and the empty value. */
  lemma RowBytes(x: byte)
    ensures PutCountedCells([Some([x]), None, Some([])]) == [0, 3, 0, 0, 0, 1, x, 0xff, 0xff, 0xff, 0xff, 0, 0, 0, 0]
  {
    Counted(3);
    Counted(1);
    Counted(0);
    OrderSigned(0, 0);
    var c3: seq<Cell> := [Some([])];
    var c2: seq<Cell> := [None] + c3;
    var c1: seq<Cell> := [Some([x])] + c2;
    assert c3[1..] == [] && c2[1..] == c3 && c1[1..] == c2;
    assert PutCells(c3) == [0, 0, 0, 0];
    assert PutCells(c2) == [0xff, 0xff, 0xff, 0xff] + PutCells(c3);
    assert PutCells(c1) == [0, 0, 0, 1, x] + PutCells(c2);
    assert c1 == [Some([x]), None, Some([])] && PutCountedCells(c1) == [0, 3] + PutCells(c1);
  }

  /** One column's description, by offset behind its name. */
  lemma ColumnBytes(f: RowDescriptionMessage.Field)
    ensures var s, n := RowDescriptionMessage.PutField(f), |f.name|;
            && |s| == n + 19 && s[..n] == f.name && s[n] == 0
            && Weighed(s[n + 1..n + 5]) == f.tableOID && Weighed(s[n + 5..n + 7]) == f.tableAttribute
            && Weighed(s[n + 7..n + 11]) == f.typeOID && Weighed(s[n + 11..n + 13]) == f.typeSize as int % 0x1_0000
            && Weighed(s[n + 13..n + 17]) == f.typeModifier as int % 0x1_0000_0000
            && Weighed(s[n + 17..n + 19]) == f.format as int % 0x1_0000
  {
    hide Weighed, PutUint32, PutUint16, PutInt16, PutInt32;
    var s, n := RowDescriptionMessage.PutField(f), |f.name|;
    assert s[n + 1..n + 5] == PutUint32(f.tableOID);
    assert s[n + 5..n + 7] == PutUint16(f.tableAttribute);
    assert s[n + 7..n + 11] == PutUint32(f.typeOID);
    assert s[n + 11..n + 13] == PutInt16(f.typeSize);
    assert s[n + 13..n + 17] == PutInt32(f.typeModifier);
    assert s[n + 17..n + 19] == PutInt16(f.format);
    Order32(f.tableOID, f.typeOID, []);
    Order32(f.typeOID, 0, []);
    Order16(f.tableAttribute, 0, []);
    OrderSigned(f.typeSize, f.typeModifier);
    OrderSigned(f.format, 0);
  }

  lemma CodeBytes()
    ensures PutCounted16([1]) == [0, 1, 0, 1] && PutCounted16([0, 1]) == [0, 2, 0, 0, 0, 1]
  {
    Counted(0);
    Counted(1);
    Counted(2);
    var f1: seq<int16> := [1];
    var f2: seq<int16> := [0] + f1;
    assert f1[1..] == [] && f2[1..] == f1 && f2 == [0, 1];
  }

  lemma ParameterBytes()
    ensures PutCountedCells([Some([7]), None]) == [0, 2, 0, 0, 0, 1, 7, 0xff, 0xff, 0xff, 0xff]
  {
    Counted(1);
    Counted(2);
    OrderSigned(0, 0);
    var c2: seq<Cell> := [None];
    var c1: seq<Cell> := [Some([7])] + c2;
    assert c2[1..] == [] && c1[1..] == c2 && c1 == [Some([7]), None];
    assert PutCells(c2) == [0xff, 0xff, 0xff, 0xff];
    assert PutCountedCells(c1) == [0, 2] + ([0, 0, 0, 1, 7] + PutCells(c2));
  }

  /** A bind message with different values in every place. */
  lemma BindBytes(portal: bytes, statement: bytes)
    ensures BindMessage.Body(BindMessage.BindMsg(portal, statement, [1], [Some([7]), None], [0, 1])) ==
            portal + [0] + (statement + [0]) +
            [0, 1, 0, 1] + [0, 2, 0, 0, 0, 1, 7, 0xff, 0xff, 0xff, 0xff] + [0, 2, 0, 0, 0, 1]
  {
    CodeBytes();
    ParameterBytes();
    hide PutCounted16, PutCountedCells;
  }

  /** A startup message: length, version, the parameters as pairs of strings, and a final zero. */
  lemma StartupBytes(version: uint32, k: bytes, v: bytes)
    ensures MapOrder.Enumerates([k], map[k := v])
    ensures var s := StartupMessages.Body(version, [k], map[k := v]);
            |s| >= 4 && Weighed(s[..4]) == version && s[4..] == k + [0] + v + [0] + [0]
  {
    hide Weighed, PutUint32;
    assert [k][1..] == [];
    assert (set x | x in [k]) == {k};
    Weighed32(version);
    var s := StartupMessages.Body(version, [k], map[k := v]);
    assert StartupMessages.PutPairs([k], map[k := v]) == k + [0] + (v + [0] + []);
    assert s[..4] == PutUint32(version);
  }

  /** One field of an error report on the wire. */
  function Field(tag: byte, v: bytes): bytes { [tag] + v + [0] + [0] }

  lemma FieldIsTagged(tag: byte, v: bytes)
    ensures Field(tag, v) == ErrorResponses.Tagged(tag, v) + [0]
  {
  }

  /** Which tag each field has, by its code: a report with one field set, as it is written. */
  lemma WrittenTags1(v: bytes)
    requires v != []
    ensures ErrorResponses.Named(ErrorResponses.EMPTY.(severity := v), [0]) == Field(83, v)
    ensures ErrorResponses.Named(ErrorResponses.EMPTY.(severityUnlocalized := v), [0]) == Field(86, v)
    ensures ErrorResponses.Named(ErrorResponses.EMPTY.(code := v), [0]) == Field(67, v)
    ensures ErrorResponses.Named(ErrorResponses.EMPTY.(message := v), [0]) == Field(77, v)
    ensures ErrorResponses.Named(ErrorResponses.EMPTY.(detail := v), [0]) == Field(68, v)
    ensures ErrorResponses.Named(ErrorResponses.EMPTY.(hint := v), [0]) == Field(72, v)
  {
    hide ErrorResponses.Tagged, Decimal.Itoa;
    FieldIsTagged(83, v);
    FieldIsTagged(86, v);
    FieldIsTagged(67, v);
    FieldIsTagged(77, v);
    FieldIsTagged(68, v);
    FieldIsTagged(72, v);
  }

  lemma WrittenTags2(v: bytes, n: int32)
    requires v != [] && n != 0
    ensures ErrorResponses.Named(ErrorResponses.EMPTY.(position := n), [0]) == Field(80, Decimal.Itoa(n))
    ensures ErrorResponses.Named(ErrorResponses.EMPTY.(internalPosition := n), [0]) == Field(112, Decimal.Itoa(n))
    ensures ErrorResponses.Named(ErrorResponses.EMPTY.(internalQuery := v), [0]) == Field(113, v)
    ensures ErrorResponses.Named(ErrorResponses.EMPTY.(where_ := v), [0]) == Field(87, v)
    ensures ErrorResponses.Named(ErrorResponses.EMPTY.(schemaName := v), [0]) == Field(115, v)
    ensures ErrorResponses.Named(ErrorResponses.EMPTY.(tableName := v), [0]) == Field(116, v)
  {
    hide ErrorResponses.Tagged, Decimal.Itoa;
    FieldIsTagged(80, Decimal.Itoa(n));
    FieldIsTagged(112, Decimal.Itoa(n));
    FieldIsTagged(113, v);
    FieldIsTagged(87, v);
    FieldIsTagged(115, v);
    FieldIsTagged(116, v);
  }

  lemma WrittenTags3(v: bytes, n: int32)
    requires v != [] && n != 0
    ensures ErrorResponses.Named(ErrorResponses.EMPTY.(columnName := v), [0]) == Field(99, v)
    ensures ErrorResponses.Named(ErrorResponses.EMPTY.(dataTypeName := v), [0]) == Field(100, v)
    ensures ErrorResponses.Named(ErrorResponses.EMPTY.(constraintName := v), [0]) == Field(110, v)
    ensures ErrorResponses.Named(ErrorResponses.EMPTY.(file := v), [0]) == Field(70, v)
    ensures ErrorResponses.Named(ErrorResponses.EMPTY.(line := n), [0]) == Field(76, Decimal.Itoa(n))
    ensures ErrorResponses.Named(ErrorResponses.EMPTY.(routine := v), [0]) == Field(82, v)
  {
    hide ErrorResponses.Tagged, Decimal.Itoa;
    FieldIsTagged(99, v);
    FieldIsTagged(100, v);
    FieldIsTagged(110, v);
    FieldIsTagged(70, v);
    FieldIsTagged(76, Decimal.Itoa(n));
    FieldIsTagged(82, v);
  }

  /** And where the value of each tag is stored, whatever was read before. */
  lemma StoredTags1(v: bytes, acc: ErrorResponses.Report)
    ensures ErrorResponses.Store(acc, 83, v) == acc.(severity := v)
    ensures ErrorResponses.Store(acc, 86, v) == acc.(severityUnlocalized := v)
    ensures ErrorResponses.Store(acc, 67, v) == acc.(code := v)
  {
  }

  lemma StoredTags2(v: bytes, acc: ErrorResponses.Report)
    ensures ErrorResponses.Store(acc, 77, v) == acc.(message := v)
    ensures ErrorResponses.Store(acc, 68, v) == acc.(detail := v)
    ensures ErrorResponses.Store(acc, 72, v) == acc.(hint := v)
  {
  }

  lemma StoredTags3(v: bytes, n: int32, acc: ErrorResponses.Report)
    ensures ErrorResponses.Store(acc, 80, Decimal.Itoa(n)) == acc.(position := n)
    ensures ErrorResponses.Store(acc, 112, Decimal.Itoa(n)) == acc.(internalPosition := n)
    ensures ErrorResponses.Store(acc, 113, v) == acc.(internalQuery := v)
  {
    hide Decimal.Itoa, Decimal.ParseInt;
    Decimal.ParseIntItoa(n);
  }

  lemma StoredTags4(v: bytes, acc: ErrorResponses.Report)
    ensures ErrorResponses.Store(acc, 87, v) == acc.(where_ := v)
    ensures ErrorResponses.Store(acc, 115, v) == acc.(schemaName := v)
    ensures ErrorResponses.Store(acc, 116, v) == acc.(tableName := v)
  {
  }

  lemma StoredTags5(v: bytes, acc: ErrorResponses.Report)
    ensures ErrorResponses.Store(acc, 99, v) == acc.(columnName := v)
    ensures ErrorResponses.Store(acc, 100, v) == acc.(dataTypeName := v)
    ensures ErrorResponses.Store(acc, 110, v) == acc.(constraintName := v)
  {
  }

  lemma StoredTags6(v: bytes, n: int32, acc: ErrorResponses.Report)
    ensures ErrorResponses.Store(acc, 70, v) == acc.(file := v)
    ensures ErrorResponses.Store(acc, 76, Decimal.Itoa(n)) == acc.(line := n)
    ensures ErrorResponses.Store(acc, 82, v) == acc.(routine := v)
  {
    hide Decimal.Itoa, Decimal.ParseInt;
    Decimal.ParseIntItoa(n);
  }

  lemma TagReads(tag: byte, v: bytes, acc: ErrorResponses.Report)
    requires tag != 0 && NulFree(v)
    ensures ErrorResponses.ParseTags(Field(tag, v), acc) == ErrorResponses.Ok(ErrorResponses.Store(acc, tag, v))
  {
    hide ErrorResponses.Store, ErrorResponses.Tagged;
    FieldIsTagged(tag, v);
    ErrorResponses.TagRead(tag, v, [0], acc);
    ErrorResponses.EndRead(ErrorResponses.Store(acc, tag, v));
  }
}
