/**
 The tables of crc32.c, as make_crc_table and braid fill them. n is the number of braids
 (N in crc32.c), w the number of bytes in a z_word_t (W) and m = n * w the size of a block.
 */
module CrcTables {
  import opened Arith
  import opened CrcField
  import opened CrcPowers
  import opened CrcRegister
  import opened CrcWords

  /** A row of 256 registers: the entry for b is b moved along by e bytes. */
  ghost predicate Row(row: seq<bv32>, e: nat) {
    |row| == 256 && forall b: Byte :: row[Index(b)] == Shift(e, Wide(b))
  }

  /** The same row for a big-endian machine. */
  ghost predicate BigRow(row: seq<Word>, e: nat, w: nat) {
    w >= 4 && |row| == 256 && forall b: Byte :: row[Index(b)] == Swap(Pad(Shift(e, Wide(b)), w))
  }

  /** crc_braid_table for blocks of m bytes. */
  ghost predicate LittleTables(ltl: seq<seq<bv32>>, m: nat, w: nat) {
    4 <= w && LittleRows(ltl, w, m)
  }

  /** crc_braid_big_table for blocks of m bytes. */
  ghost predicate BigTables(big: seq<seq<Word>>, m: nat, w: nat) {
    4 <= w && BigRows(big, w, m, w)
  }

  datatype Tables = Tables(crcTable: seq<bv32>, crcBigTable: seq<Word>, x2nTable: seq<bv32>,
                           braidTable: seq<seq<bv32>>, braidBigTable: seq<seq<Word>>)

  ghost predicate Made(t: Tables, n: nat, w: nat) {
    && 1 <= n && 4 <= w
    && ByteTable(t.crcTable)
    && BigTable(t.crcBigTable, w)
    && |t.x2nTable| == 32 && PowerTable(t.x2nTable)
    && LittleTables(t.braidTable, n * w, w)
    && BigTables(t.braidBigTable, n * w, w)
  }

  // make_crc_table and braid.

  /** The shift register run over one byte, bit by bit. */
  method ByteEntry(i: Byte) returns (p: bv32)
    ensures p == Shift(1, Wide(i))
  {
    p := Wide(i);
    assert TimesXn(0, p) == p;
    for j := 0 to 8
      invariant p == TimesXn(j, Wide(i))
    {
      p := TimesX(p);
    }
  }

  method ByteOf(i: nat) returns (b: Byte)
    requires i < 256
    ensures b == i as Byte && forall d: Byte :: Index(d) == i ==> d == b
  {
    b := i as Byte;
    forall d: Byte | Index(d) == i
      ensures d == b
    {
      assert Index(d) as Byte == d;
    }
  }

  /** The first i entries of a row. */
  ghost predicate RowTo(row: seq<bv32>, i: nat, e: nat) {
    |row| == i && forall b: Byte :: Index(b) < i ==> row[Index(b)] == Shift(e, Wide(b))
  }

  ghost predicate BigRowTo(row: seq<Word>, i: nat, e: nat, w: nat) {
    w >= 4 && |row| == i && forall b: Byte :: Index(b) < i ==> row[Index(b)] == Swap(Pad(Shift(e, Wide(b)), w))
  }

  lemma RowMore(row: seq<bv32>, big: seq<Word>, i: nat, b: Byte, e: nat, w: nat)
    requires RowTo(row, i, e) && BigRowTo(big, i, e, w) && forall d: Byte :: Index(d) == i ==> d == b
    ensures RowTo(row + [Shift(e, Wide(b))], i + 1, e)
    ensures BigRowTo(big + [Swap(Pad(Shift(e, Wide(b)), w))], i + 1, e, w)
  {
  }

  method MakeByteTables(w: nat) returns (table: seq<bv32>, big: seq<Word>)
    requires w >= 4
    ensures ByteTable(table) && BigTable(big, w)
  {
    table, big := [], [];
    for i := 0 to 256
      invariant RowTo(table, i, 1) && BigRowTo(big, i, 1, w)
    {
      var b := ByteOf(i);
      var p := ByteEntry(b);
      RowMore(table, big, i, b, 1, w);
      table, big := table + [p], big + [Swap(Pad(p, w))];
    }
  }

  lemma EntryMoves(e: nat, b: Byte)
    ensures Mul(AtTop(b), TimesXn(8 * (e + 3), ONE)) == Shift(e, Wide(b))
  {
    MulPower(8 * (e + 3), AtTop(b));
    ShiftAdd(e, 3, AtTop(b));
    TopByte(b);
  }

  lemma TopNonzero(b: Byte)
    ensures b != 0 ==> AtTop(b) != 0
    ensures Wide(0) == 0
  {
  }

  method BraidEntry(p: bv32, ghost e: nat, b: Byte) returns (q: bv32)
    requires p == TimesXn(8 * (e + 3), ONE) && b != 0
    ensures q == Shift(e, Wide(b))
  {
    TopNonzero(b);
    EntryMoves(e, b);
    q := Multmodp(AtTop(b), p);
  }

  /** The inner loop of braid: one row of each table. */
  method BraidRow(p: bv32, ghost e: nat, w: nat) returns (row: seq<bv32>, big: seq<Word>)
    requires p == TimesXn(8 * (e + 3), ONE) && w >= 4
    ensures Row(row, e) && BigRow(big, e, w)
  {
    row, big := [0], [Zeros(w)];
    FirstEntry(e, w);
    for i := 1 to 256
      invariant RowTo(row, i, e) && BigRowTo(big, i, e, w)
    {
      var b := ByteOf(i);
      NotZero(i, b);
      var q := BraidEntry(p, e, b);
      RowMore(row, big, i, b, e, w);
      row, big := row + [q], big + [Swap(Pad(q, w))];
    }
  }

  lemma NotZero(i: nat, b: Byte)
    requires 0 < i < 256 && b == i as Byte
    ensures b != 0
  {
  }

  lemma FirstEntry(e: nat, w: nat)
    requires w >= 4
    ensures Shift(e, Wide(0)) == 0 && Swap(Pad(0, w)) == Zeros(w)
  {
    ShiftZero(e, 0);
    TopNonzero(0);
    XorWordZero(Zeros(w));
  }

  method RowsFor(x2n: seq<bv32>, e: nat, w: nat) returns (row: seq<bv32>, big: seq<Word>)
    requires |x2n| == 32 && PowerTable(x2n) && w >= 4
    ensures Row(row, e) && BigRow(big, e, w)
  {
    assert Scaled(8 * (e + 3), 0) == 8 * (e + 3);
    var p := X2nmodp(x2n, 8 * (e + 3), 0);
    row, big := BraidRow(p, e, w);
  }

  /** The first k rows of crc_braid_table, and the last k of crc_braid_big_table. */
  ghost predicate LittleRows(ltl: seq<seq<bv32>>, k: nat, m: nat) {
    |ltl| == k <= m && forall j :: 0 <= j < k ==> Row(ltl[j], m - j)
  }

  ghost predicate BigRows(big: seq<seq<Word>>, k: nat, m: nat, w: nat) {
    |big| == k <= m && forall j :: 0 <= j < k ==> BigRow(big[j], m - (k - 1 - j), w)
  }

  lemma MoreRows(ltl: seq<seq<bv32>>, big: seq<seq<Word>>, k: nat, m: nat, w: nat, row: seq<bv32>, bigRow: seq<Word>)
    requires LittleRows(ltl, k, m) && BigRows(big, k, m, w) && k < m
    requires Row(row, m - k) && BigRow(bigRow, m - k, w)
    ensures LittleRows(ltl + [row], k + 1, m) && BigRows([bigRow] + big, k + 1, m, w)
  {
    var more := [bigRow] + big;
    forall j | 0 <= j < k + 1
      ensures BigRow(more[j], m - (k + 1 - 1 - j), w)
    {
      if j > 0 {
        assert more[j] == big[j - 1];
      }
    }
  }

  /** braid: the row that serves byte k of a word serves byte w - 1 - k of a swapped one. */
  method Braid(x2n: seq<bv32>, m: nat, w: nat) returns (ltl: seq<seq<bv32>>, big: seq<seq<Word>>)
    requires |x2n| == 32 && PowerTable(x2n) && 4 <= w <= m
    ensures LittleTables(ltl, m, w) && BigTables(big, m, w)
  {
    ltl, big := [], [];
    for k := 0 to w
      invariant LittleRows(ltl, k, m) && BigRows(big, k, m, w)
    {
      var row, bigRow := RowsFor(x2n, m - k, w);
      MoreRows(ltl, big, k, m, w, row, bigRow);
      ltl, big := ltl + [row], [bigRow] + big;
    }
  }

  lemma BlockFits(n: nat, w: nat)
    requires 1 <= n <= 6 && (w == 4 || w == 8)
    ensures w <= n * w
  {
  }

  /** make_crc_table. */
  method MakeCrcTable(n: nat, w: nat) returns (t: Tables)
    requires 1 <= n <= 6 && (w == 4 || w == 8)
    ensures Made(t, n, w)
  {
    var table, big := MakeByteTables(w);
    var x2n := MakePowerTable();
    BlockFits(n, w);
    var ltl, bigs := Braid(x2n, n * w, w);
    t := Tables(table, big, x2n, ltl, bigs);
  }
}
