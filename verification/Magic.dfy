// The table of magic numbers and the test of a file's first bytes (src/magic.c).

module Magic {
  import opened ByteTrie

  // Each row holds up to eight bytes, padded with zeros, and then how many of them count; a
  // tenth byte is left at zero.
  const MENTRY_LEN: nat := 9
  const COUNT_AT: nat := 8
  const MAGIC_INDEX: seq<seq<Byte>> := [
    [0x00, 0x00, 0x00, 0x14, 0x66, 0x74, 0x79, 0x70, 8, 0],
    [0x00, 0x00, 0x00, 0x18, 0x66, 0x74, 0x79, 0x70, 8, 0],
    [0x00, 0x00, 0x00, 0x20, 0x66, 0x74, 0x79, 0x70, 8, 0],
    [0x00, 0x00, 0x01, 0x00, 0x00, 0x00, 0x00, 0x00, 4, 0],
    [0x01, 0x78, 0x00, 0x00, 0x00, 0x00, 0x00, 0x00, 2, 0],
    [0x1F, 0x9D, 0x00, 0x00, 0x00, 0x00, 0x00, 0x00, 2, 0],
    [0x1F, 0xA0, 0x00, 0x00, 0x00, 0x00, 0x00, 0x00, 2, 0],
    [0x21, 0x3C, 0x61, 0x72, 0x63, 0x68, 0x3E, 0x0A, 8, 0],
    [0x25, 0x50, 0x44, 0x46, 0x00, 0x00, 0x00, 0x00, 4, 0],
    [0x38, 0x42, 0x50, 0x53, 0x00, 0x00, 0x00, 0x00, 4, 0],
    [0x42, 0x4D, 0x00, 0x00, 0x00, 0x00, 0x00, 0x00, 2, 0],
    [0x43, 0x44, 0x30, 0x30, 0x31, 0x00, 0x00, 0x00, 5, 0],
    [0x47, 0x49, 0x46, 0x38, 0x37, 0x61, 0x00, 0x00, 6, 0],
    [0x47, 0x49, 0x46, 0x38, 0x39, 0x61, 0x00, 0x00, 6, 0],
    [0x49, 0x44, 0x33, 0x00, 0x00, 0x00, 0x00, 0x00, 3, 0],
    [0x49, 0x49, 0x2A, 0x00, 0x00, 0x00, 0x00, 0x00, 4, 0],
    [0x4D, 0x4D, 0x00, 0x2A, 0x00, 0x00, 0x00, 0x00, 4, 0],
    [0x4D, 0x5A, 0x00, 0x00, 0x00, 0x00, 0x00, 0x00, 2, 0],
    [0x4F, 0x67, 0x67, 0x53, 0x00, 0x00, 0x00, 0x00, 4, 0],
    [0x50, 0x4B, 0x03, 0x04, 0x00, 0x00, 0x00, 0x00, 4, 0],
    [0x50, 0x4B, 0x05, 0x06, 0x00, 0x00, 0x00, 0x00, 4, 0],
    [0x50, 0x4B, 0x07, 0x08, 0x00, 0x00, 0x00, 0x00, 4, 0],
    [0x52, 0x61, 0x72, 0x21, 0x1A, 0x07, 0x00, 0x00, 7, 0],
    [0x52, 0x61, 0x72, 0x21, 0x1A, 0x07, 0x01, 0x00, 8, 0],
    [0x66, 0x4C, 0x61, 0x43, 0x00, 0x00, 0x00, 0x00, 4, 0],
    [0x7F, 0x45, 0x4C, 0x46, 0x00, 0x00, 0x00, 0x00, 4, 0],
    [0x89, 0x50, 0x4E, 0x47, 0x0D, 0x0A, 0x1A, 0x0A, 8, 0],
    [0xCA, 0xFE, 0xBA, 0xBE, 0x00, 0x00, 0x00, 0x00, 4, 0],
    [0xCE, 0xFA, 0xED, 0xFE, 0x00, 0x00, 0x00, 0x00, 4, 0],
    [0xCF, 0xFA, 0xED, 0xFE, 0x00, 0x00, 0x00, 0x00, 4, 0],
    [0xD0, 0xCF, 0x11, 0xE0, 0x00, 0x00, 0x00, 0x00, 4, 0],
    [0xFE, 0xED, 0xFA, 0xCE, 0x00, 0x00, 0x00, 0x00, 4, 0],
    [0xFE, 0xED, 0xFA, 0xCF, 0x00, 0x00, 0x00, 0x00, 4, 0],
    [0xFF, 0xFB, 0x00, 0x00, 0x00, 0x00, 0x00, 0x00, 2, 0]
  ]

  predicate RowsOk(rows: seq<seq<Byte>>) {
    forall i :: 0 <= i < |rows| ==> |rows[i]| == MENTRY_LEN + 1 && 0 < rows[i][COUNT_AT] <= COUNT_AT
  }

  lemma TableOk()
    ensures |MAGIC_INDEX| == 34 && RowsOk(MAGIC_INDEX)
  {
  }

  function Entry(row: seq<Byte>): Path
    requires |row| == MENTRY_LEN + 1 && row[COUNT_AT] <= COUNT_AT
  {
    row[..row[COUNT_AT]]
  }

  ghost function EntriesOf(rows: seq<seq<Byte>>): set<Path>
    requires RowsOk(rows)
  {
    set i | 0 <= i < |rows| :: Entry(rows[i])
  }

  // The rows of a table, inserted one after the other.
  method InsertRows(tr: Trie, rows: seq<seq<Byte>>)
    requires tr.Valid() && tr.root != null && RowsOk(rows)
    modifies tr, tr.nodes.Values
    ensures tr.Valid() && tr.root != null && tr.Entries() == old(tr.Entries()) + EntriesOf(rows)
    ensures old(tr.Canonical()) ==> tr.Canonical()
  {
    for i := 0 to |rows|
      invariant tr.Valid() && tr.root != null && RowsOk(rows[..i])
      invariant fresh(tr.nodes.Values - old(tr.nodes.Values))
      invariant tr.Entries() == old(tr.Entries()) + EntriesOf(rows[..i])
      invariant old(tr.Canonical()) ==> tr.Canonical()
    {
      var _ := tr.Insert(rows[i], rows[i][COUNT_AT]);
      OneMoreRow(rows, i);
    }
    assert rows[..|rows|] == rows;
  }

  // p is just the counted bytes of the row.
  predicate Spells(row: seq<Byte>, p: Path)
    requires |row| == 10 && row[8] <= 8
  {
    |p| == row[8] && forall j: nat :: j < |p| ==> p[j] == row[j]
  }

  ghost predicate SpeltByRow(rows: seq<seq<Byte>>, p: Path)
    requires RowsOk(rows)
  {
    exists i: nat :: i < |rows| && Spells(rows[i], p)
  }

  lemma {:induction false} EntriesSpelt(rows: seq<seq<Byte>>, p: Path)
    requires RowsOk(rows)
    ensures p in EntriesOf(rows) <==> SpeltByRow(rows, p)
  {
    if p in EntriesOf(rows) {
      var i :| 0 <= i < |rows| && p == Entry(rows[i]);
      assert Spells(rows[i], p);
    }
    if i: nat :| i < |rows| && Spells(rows[i], p) {
      assert p == Entry(rows[i]);
    }
  }

  method MagicInit(tr: Trie)
    requires tr.Valid()
    modifies tr, tr.nodes.Values
    ensures tr.Valid() && tr.root != null && tr.Entries() == old(tr.Entries()) + EntriesOf(MAGIC_INDEX)
    ensures forall p: Path :: p in tr.Entries() <==> p in old(tr.Entries()) || SpeltByRow(MAGIC_INDEX, p)
    ensures old(tr.root) == null ==> tr.Canonical()
  {
    TableOk();
    tr.Init();
    InsertRows(tr, MAGIC_INDEX);
    forall p: Path ensures p in EntriesOf(MAGIC_INDEX) <==> SpeltByRow(MAGIC_INDEX, p) { EntriesSpelt(MAGIC_INDEX, p); }
  }

  lemma OneMoreRow(rows: seq<seq<Byte>>, i: nat)
    requires RowsOk(rows) && i < |rows|
    ensures RowsOk(rows[..i]) && RowsOk(rows[..i + 1])
    ensures EntriesOf(rows[..i + 1]) == EntriesOf(rows[..i]) + {Entry(rows[i])}
  {
    assert rows[..i + 1] == rows[..i] + [rows[i]];
  }

  // The counted bytes of a row begin the given ones.
  predicate Starts(row: seq<Byte>, bytes: seq<Byte>)
    requires |row| == 10 && row[8] <= 8
  {
    row[8] <= |bytes| && forall j: nat :: j < row[8] ==> bytes[j] == row[j]
  }

  lemma {:induction false} StartsIsEntry(row: seq<Byte>, bytes: seq<Byte>)
    requires |row| == 10 && row[8] <= 8
    ensures Starts(row, bytes) <==> Entry(row) <= bytes
  {
  }

  /** Trying the rows one after the other asks whether the counted bytes of some row begin the
      given ones. */
  lemma {:induction false} NaiveScanStarts(rows: seq<seq<Byte>>, bytes: seq<Byte>)
    requires RowsOk(rows)
    ensures NaiveScan(rows, bytes) <==> StartsWithRow(rows, bytes)
  {
    if rows != [] {
      NaiveScanStarts(rows[1..], bytes);
      StartsIsEntry(rows[0], bytes);
      if i: nat :| i < |rows| && Starts(rows[i], bytes) {
        assert i > 0 ==> rows[1..][i - 1] == rows[i];
      }
      if i: nat :| i < |rows[1..]| && Starts(rows[1..][i], bytes) {
        assert rows[i + 1] == rows[1..][i];
      }
    }
  }

  ghost predicate StartsWithRow(rows: seq<seq<Byte>>, bytes: seq<Byte>)
    requires RowsOk(rows)
  {
    exists i: nat :: i < |rows| && Starts(rows[i], bytes)
  }

  method ScanRows(tr: Trie, ghost rows: seq<seq<Byte>>, bytes: seq<Byte>) returns (known: bool)
    requires tr.Valid() && tr.root != null && RowsOk(rows) && tr.Entries() == EntriesOf(rows) && |bytes| == 16
    ensures known == NaiveScan(rows, bytes)
    ensures known <==> StartsWithRow(rows, bytes)
  {
    var r := tr.Scan(bytes, 16);
    assert bytes[..16] == bytes;
    NaiveScanIff(rows, bytes);
    NaiveScanStarts(rows, bytes);
    known := r != null;
  }

  // The test on the sixteen bytes read from the file.
  method MagicScan(tr: Trie, magicBuf: seq<Byte>) returns (known: bool)
    requires tr.Valid() && tr.root != null && tr.Entries() == EntriesOf(MAGIC_INDEX) && |magicBuf| == 16
    ensures known == NaiveScan(MAGIC_INDEX, magicBuf)
    ensures known <==> StartsWithRow(MAGIC_INDEX, magicBuf)
  {
    known := ScanRows(tr, MAGIC_INDEX, magicBuf);
  }

  // --------------------------------------------------- the numbers themselves

  // Bytes read as one number, the first the most significant.
  function Number(bytes: seq<Byte>): nat {
    if bytes == [] then 0 else 256 * Number(bytes[..|bytes| - 1]) + bytes[|bytes| - 1]
  }

  // Of so many bytes each, two numbers are the same only if the bytes are.
  lemma {:induction false} NumberDecides(a: seq<Byte>, b: seq<Byte>)
    requires |a| == |b|
    ensures Number(a) == Number(b) <==> a == b
  {
    if a != [] {
      var m := |a| - 1;
      NumberDecides(a[..m], b[..m]);
      assert a == a[..m] + [a[m]] && b == b[..m] + [b[m]];
    }
  }

  // The constants M_3GPP_FTYP to M_MP3_V01, with the bytes they are written with.
  datatype MagicNumber = MagicNumber(value: nat, bytes: nat)

  const MAGIC_NUMBERS: seq<MagicNumber> := [
    MagicNumber(0x0000001466747970, 8), MagicNumber(0x0000001866747970, 8), MagicNumber(0x0000002066747970, 8),
    MagicNumber(0x00000100, 4), MagicNumber(0x0178, 2), MagicNumber(0x1F9D, 2), MagicNumber(0x1FA0, 2),
    MagicNumber(0x213C617263683E0A, 8), MagicNumber(0x25504446, 4), MagicNumber(0x38425053, 4),
    MagicNumber(0x424D, 2), MagicNumber(0x4344303031, 5), MagicNumber(0x474946383761, 6),
    MagicNumber(0x474946383961, 6), MagicNumber(0x494433, 3), MagicNumber(0x49492A00, 4),
    MagicNumber(0x4D4D002A, 4), MagicNumber(0x4D5A, 2), MagicNumber(0x4F676753, 4), MagicNumber(0x504B0304, 4),
    MagicNumber(0x504B0506, 4), MagicNumber(0x504B0708, 4), MagicNumber(0x526172211A0700, 7),
    MagicNumber(0x526172211A070100, 8), MagicNumber(0x664C6143, 4), MagicNumber(0x7F454C46, 4),
    MagicNumber(0x89504E470D0A1A0A, 8), MagicNumber(0xCAFEBABE, 4), MagicNumber(0xCEFAEDFE, 4),
    MagicNumber(0xCFFAEDFE, 4), MagicNumber(0xD0CF11E0, 4), MagicNumber(0xFEEDFACE, 4), MagicNumber(0xFEEDFACF, 4),
    MagicNumber(0xFFFB, 2)
  ]

  // The number that the first n bytes of a row make, written out.
  function Written(row: seq<Byte>, n: nat): nat
    requires n <= |row|
  {
    if n == 0 then 0 else 256 * Written(row, n - 1) + row[n - 1]
  }

  lemma {:induction false} WrittenIsNumber(row: seq<Byte>, n: nat)
    requires n <= |row|
    ensures Written(row, n) == Number(row[..n])
  {
    if n > 0 {
      WrittenIsNumber(row, n - 1);
      assert row[..n][..n - 1] == row[..n - 1];
    }
  }

  // Row i counts as many bytes as the i-th constant is written with, and they make up its value.
  predicate RowIsNumber(i: nat)
    requires i < |MAGIC_INDEX| == |MAGIC_NUMBERS| && RowsOk(MAGIC_INDEX)
  {
    && MAGIC_INDEX[i][8] == MAGIC_NUMBERS[i].bytes
    && Written(MAGIC_INDEX[i], MAGIC_INDEX[i][8]) == MAGIC_NUMBERS[i].value
  }

  lemma RowsFrom0(i: nat)
    requires i < 4 && RowsOk(MAGIC_INDEX)
    ensures RowIsNumber(i)
  {
  }

  lemma RowsFrom4(i: nat)
    requires 4 <= i < 7 && RowsOk(MAGIC_INDEX)
    ensures RowIsNumber(i)
  {
  }

  lemma RowsFrom7(i: nat)
    requires 7 <= i < 9 && RowsOk(MAGIC_INDEX)
    ensures RowIsNumber(i)
  {
  }

  lemma RowsFrom9(i: nat)
    requires 9 <= i < 13 && RowsOk(MAGIC_INDEX)
    ensures RowIsNumber(i)
  {
  }

  lemma RowsFrom13(i: nat)
    requires 13 <= i < 17 && RowsOk(MAGIC_INDEX)
    ensures RowIsNumber(i)
  {
  }

  lemma RowsFrom17(i: nat)
    requires 17 <= i < 21 && RowsOk(MAGIC_INDEX)
    ensures RowIsNumber(i)
  {
  }

  lemma RowsFrom21(i: nat)
    requires 21 <= i < 24 && RowsOk(MAGIC_INDEX)
    ensures RowIsNumber(i)
  {
  }

  lemma RowsFrom24(i: nat)
    requires 24 <= i < 27 && RowsOk(MAGIC_INDEX)
    ensures RowIsNumber(i)
  {
  }

  lemma RowsFrom27(i: nat)
    requires 27 <= i < 34 && RowsOk(MAGIC_INDEX)
    ensures RowIsNumber(i)
  {
  }

  /** The counted bytes of each row, read as one number, are the constant that it stands for. */
  lemma {:induction false} RowsAreNumbers(i: nat)
    requires i < |MAGIC_INDEX|
    ensures |MAGIC_NUMBERS| == |MAGIC_INDEX| && |MAGIC_INDEX[i]| == 10
    ensures MAGIC_INDEX[i][8] == MAGIC_NUMBERS[i].bytes <= 8
    ensures Number(MAGIC_INDEX[i][..MAGIC_INDEX[i][8]]) == MAGIC_NUMBERS[i].value
  {
    TableOk();
    if i < 4 {
      RowsFrom0(i);
    } else if i < 7 {
      RowsFrom4(i);
    } else if i < 9 {
      RowsFrom7(i);
    } else if i < 13 {
      RowsFrom9(i);
    } else if i < 17 {
      RowsFrom13(i);
    } else if i < 21 {
      RowsFrom17(i);
    } else if i < 24 {
      RowsFrom21(i);
    } else if i < 27 {
      RowsFrom24(i);
    } else {
      RowsFrom27(i);
    }
    assert RowIsNumber(i);
    WrittenIsNumber(MAGIC_INDEX[i], MAGIC_INDEX[i][8]);
  }

  // The bytes begin with those of a row exactly if they begin with its number.
  lemma {:induction false} StartsIsNumber(i: nat, bytes: seq<Byte>)
    requires i < |MAGIC_INDEX| && |bytes| == 16 && RowsOk(MAGIC_INDEX)
    ensures |MAGIC_NUMBERS| == |MAGIC_INDEX| && MAGIC_NUMBERS[i].bytes <= 8
    ensures Starts(MAGIC_INDEX[i], bytes) <==> Number(bytes[..MAGIC_NUMBERS[i].bytes]) == MAGIC_NUMBERS[i].value
  {
    RowsAreNumbers(i);
    var row := MAGIC_INDEX[i];
    NumberDecides(bytes[..row[8]], row[..row[8]]);
    StartsIsEntry(row, bytes);
  }

  // The bytes begin with one of the constants.
  ghost predicate StartsWithNumber(numbers: seq<MagicNumber>, bytes: seq<Byte>) {
    exists i: nat :: i < |numbers| && NumberStarts(numbers[i], bytes)
  }

  predicate NumberStarts(m: MagicNumber, bytes: seq<Byte>) {
    m.bytes <= |bytes| && Number(bytes[..m.bytes]) == m.value
  }

  /** Sixteen bytes are known exactly if they begin with one of the constants, most significant byte
      first. */
  lemma {:induction false} KnownIffNumber(bytes: seq<Byte>)
    requires |bytes| == 16 && RowsOk(MAGIC_INDEX)
    ensures NaiveScan(MAGIC_INDEX, bytes) <==> StartsWithNumber(MAGIC_NUMBERS, bytes)
  {
    NaiveScanStarts(MAGIC_INDEX, bytes);
    if i: nat :| i < |MAGIC_INDEX| && Starts(MAGIC_INDEX[i], bytes) {
      StartsIsNumber(i, bytes);
      assert NumberStarts(MAGIC_NUMBERS[i], bytes);
    }
    if i: nat :| i < |MAGIC_NUMBERS| && NumberStarts(MAGIC_NUMBERS[i], bytes) {
      StartsIsNumber(i, bytes);
    }
  }

  // The same test without a trie: try the rows one after the other.
  predicate NaiveScan(rows: seq<seq<Byte>>, magicBuf: seq<Byte>)
    requires RowsOk(rows)
  {
    rows != [] && (Entry(rows[0]) <= magicBuf || NaiveScan(rows[1..], magicBuf))
  }

  /** Trying the rows one after the other asks whether a prefix of the bytes is an entry. */
  lemma {:induction false} NaiveScanIff(rows: seq<seq<Byte>>, magicBuf: seq<Byte>)
    requires RowsOk(rows)
    ensures NaiveScan(rows, magicBuf) <==> HasPrefixIn(EntriesOf(rows), magicBuf)
  {
    if rows != [] {
      NaiveScanIff(rows[1..], magicBuf);
      var e := Entry(rows[0]);
      assert EntriesOf(rows) == {e} + EntriesOf(rows[1..]) by {
        forall p | p in EntriesOf(rows) ensures p == e || p in EntriesOf(rows[1..]) {
          var i :| 0 <= i < |rows| && p == Entry(rows[i]);
          assert i > 0 ==> rows[i] == rows[1..][i - 1];
        }
        forall p | p in EntriesOf(rows[1..]) ensures p in EntriesOf(rows) {
          var i :| 0 <= i < |rows[1..]| && p == Entry(rows[1..][i]);
          assert p == Entry(rows[i + 1]);
        }
      }
      if e <= magicBuf { assert magicBuf[..|e|] == e; }
      if HasPrefixIn(EntriesOf(rows), magicBuf) {
        var k: nat :| k <= |magicBuf| && magicBuf[..k] in EntriesOf(rows);
      }
      if HasPrefixIn(EntriesOf(rows[1..]), magicBuf) {
        var k: nat :| k <= |magicBuf| && magicBuf[..k] in EntriesOf(rows[1..]);
        assert magicBuf[..k] in EntriesOf(rows);
      }
    }
  }

  // -------------------------------------------------------- no row to spare

  // a comes before b, and they differ at some byte that both have.
  ghost predicate Before(a: Path, b: Path) {
    exists k: nat :: FirstDiffer(a, b, k)
  }

  predicate FirstDiffer(a: Path, b: Path, k: nat) {
    k < |a| && k < |b| && a[k] < b[k] && forall j: nat :: j < k ==> a[j] == b[j]
  }

  lemma BeforeTrans(a: Path, b: Path, c: Path)
    requires Before(a, b) && Before(b, c)
    ensures Before(a, c)
  {
    var k: nat, l: nat :| FirstDiffer(a, b, k) && FirstDiffer(b, c, l);
    assert FirstDiffer(a, c, if k < l then k else l);
  }

  lemma BeforeDiffers(a: Path, b: Path)
    requires Before(a, b)
    ensures !(a <= b) && !(b <= a)
  {
  }

  // Where each row first differs from the next.
  ghost const DIFFERS: seq<nat> := [
    3, 3, 2, 0, 0, 1, 0, 0, 0, 0, 0, 0, 4, 0, 1, 0, 1, 0, 0, 2, 2, 0, 6, 0, 0, 0, 0, 0, 0, 0, 0, 3, 0
  ]

  lemma UpperAscends(i: nat)
    requires i < 17 && RowsOk(MAGIC_INDEX)
    ensures FirstDiffer(Entry(MAGIC_INDEX[i]), Entry(MAGIC_INDEX[i + 1]), DIFFERS[i])
  {
  }

  lemma LowerAscends(i: nat)
    requires 17 <= i < 33 && RowsOk(MAGIC_INDEX)
    ensures FirstDiffer(Entry(MAGIC_INDEX[i]), Entry(MAGIC_INDEX[i + 1]), DIFFERS[i])
  {
  }

  lemma TableAscends(i: nat)
    requires i < 33 && RowsOk(MAGIC_INDEX)
    ensures Before(Entry(MAGIC_INDEX[i]), Entry(MAGIC_INDEX[i + 1]))
  {
    if i < 17 { UpperAscends(i); } else { LowerAscends(i); }
  }

  lemma {:induction false} TableSorted(i: nat, j: nat)
    requires i < j < 34 && RowsOk(MAGIC_INDEX)
    ensures Before(Entry(MAGIC_INDEX[i]), Entry(MAGIC_INDEX[j]))
  {
    TableAscends(j - 1);
    if i < j - 1 {
      TableSorted(i, j - 1);
      BeforeTrans(Entry(MAGIC_INDEX[i]), Entry(MAGIC_INDEX[j - 1]), Entry(MAGIC_INDEX[j]));
    }
  }

  lemma {:induction false} NotAboveOrBelow(i: nat, k: nat, t: Path)
    requires RowsOk(MAGIC_INDEX) && i < |MAGIC_INDEX| == 34 && t == Entry(MAGIC_INDEX[i]) && k <= |t|
    ensures t[..k] !in EntriesOf(MAGIC_INDEX[..i]) && t[..k] !in EntriesOf(MAGIC_INDEX[i + 1..])
  {
    if t[..k] in EntriesOf(MAGIC_INDEX[..i]) {
      var j :| 0 <= j < i && t[..k] == Entry(MAGIC_INDEX[..i][j]);
      var e := Entry(MAGIC_INDEX[j]);
      TableSorted(j, i);
      BeforeDiffers(e, t);
    }
    if t[..k] in EntriesOf(MAGIC_INDEX[i + 1..]) {
      var j :| 0 <= j < 33 - i && t[..k] == Entry(MAGIC_INDEX[i + 1..][j]);
      var e := Entry(MAGIC_INDEX[i + 1 + j]);
      TableSorted(i, i + 1 + j);
      BeforeDiffers(t, e);
    }
  }

  /** No row of the table is covered by the others: without it, some scan would answer otherwise. */
  lemma {:induction false} NoRowToSpare(i: nat)
    requires RowsOk(MAGIC_INDEX) && i < |MAGIC_INDEX|
    ensures var others := EntriesOf(MAGIC_INDEX[..i]) + EntriesOf(MAGIC_INDEX[i + 1..]);
            exists t :: HasPrefixIn(EntriesOf(MAGIC_INDEX), t) && !HasPrefixIn(others, t)
  {
    TableOk();
    var t := Entry(MAGIC_INDEX[i]);
    var others := EntriesOf(MAGIC_INDEX[..i]) + EntriesOf(MAGIC_INDEX[i + 1..]);
    assert t[..|t|] == t && t in EntriesOf(MAGIC_INDEX);
    forall k: nat | k <= |t| ensures t[..k] !in others {
      NotAboveOrBelow(i, k, t);
    }
    assert HasPrefixIn(EntriesOf(MAGIC_INDEX), t) && !HasPrefixIn(others, t);
  }
}
