/**
 * The extractor's `Table` serialisation: `_dump` packs the four sizes and
 * the product of the three dimensions as 32-bit words, then the cells as
 * 16-bit words (`pack('LLLLLS*')`); `_load` unpacks them and drops the
 * product field. Words are little-endian, as on the x86 machines the editor
 * runs on; `pack` keeps the low 32 or 16 bits of each value.
 */
module TablePack {
  import opened Wrappers

  type byte = x: int | 0 <= x < 256

  const Two16 := 0x1_0000
  const Two32 := 0x1_0000_0000

  /** A `Table`: its size field, its three dimensions and its cells. */
  datatype Table = Table(size: int, xsize: int, ysize: int, zsize: int, data: seq<int>)

  /** `pack('S')`: the low 16 bits, low byte first. */
  function Word16(v: int): (w: seq<byte>)
    ensures |w| == 2
  {
    [v % 256, (v / 256) % 256]
  }

  /** `pack('L')`: the low 32 bits, low byte first. */
  function Word32(v: int): (w: seq<byte>)
    ensures |w| == 4
  {
    Word16(v) + Word16(v / Two16)
  }

  /** `unpack('S')` at byte `i`. */
  function Read16(b: seq<byte>, i: nat): (v: int)
    requires i + 2 <= |b|
    ensures 0 <= v < Two16
  {
    b[i] as int + 256 * (b[i + 1] as int)
  }

  /** `unpack('L')` at byte `i`. */
  function Read32(b: seq<byte>, i: nat): (v: int)
    requires i + 4 <= |b|
    ensures 0 <= v < Two32
  {
    Read16(b, i) + Two16 * Read16(b, i + 2)
  }

  /** The cells packed one after another. */
  function Cells(data: seq<int>): (b: seq<byte>)
    ensures |b| == 2 * |data|
  {
    if data == [] then [] else Word16(data[0]) + Cells(data[1..])
  }

  /** `S*`: every whole 16-bit word from byte `i` on; an odd last byte is ignored. */
  function ReadCells(b: seq<byte>, i: nat): (data: seq<int>)
    requires i <= |b|
    ensures |data| == (|b| - i) / 2
    decreases |b| - i
  {
    if i + 2 > |b| then [] else [Read16(b, i)] + ReadCells(b, i + 2)
  }

  /** `_dump`. */
  function Dump(t: Table): (b: seq<byte>)
    ensures |b| == 20 + 2 * |t.data|
  {
    Word32(t.size) + Word32(t.xsize) + Word32(t.ysize) + Word32(t.zsize)
      + Word32(t.xsize * t.ysize * t.zsize) + Cells(t.data)
  }

  /**
   * `_load`. With fewer than 20 bytes some size field unpacks to `nil`; that
   * case is `None` here.
   */
  function Load(b: seq<byte>): (t: Option<Table>)
    ensures t.Some? <==> |b| >= 20
    ensures t.Some? ==> |t.value.data| == (|b| - 20) / 2
  {
    if |b| < 20 then None
    else Some(Table(Read32(b, 0), Read32(b, 4), Read32(b, 8), Read32(b, 12), ReadCells(b, 20)))
  }

  /** Every cell reduced to its low 16 bits, as `S` unpacks it. */
  function Low16(data: seq<int>): (r: seq<int>)
    ensures |r| == |data|
    ensures forall i :: 0 <= i < |data| ==> r[i] == data[i] % Two16
  {
    seq(|data|, i requires 0 <= i < |data| => data[i] % Two16)
  }

  // ---------------------------------------------------------------------------
  // Arithmetic of words
  // ---------------------------------------------------------------------------

  /** The low 16 bits of `v` are its low byte and the low byte of `v / 256`. */
  lemma Split16(v: int)
    ensures v % Two16 == v % 256 + 256 * ((v / 256) % 256)
  {
  }

  /** The low 32 bits of `v` are its low 16 bits and the low 16 bits of `v / 2^16`. */
  lemma Split32(v: int)
    ensures v % Two32 == v % Two16 + Two16 * ((v / Two16) % Two16)
  {
  }

  lemma Word16Read(v: int)
    ensures Read16(Word16(v), 0) == v % Two16
  {
    Split16(v);
  }

  lemma Word32Read(v: int)
    ensures Read32(Word32(v), 0) == v % Two32
  {
    var w := Word32(v);
    Word16Read(v);
    Word16Read(v / Two16);
    assert w[0..2] == Word16(v) && w[2..4] == Word16(v / Two16);
    assert Read16(w, 0) == Read16(Word16(v), 0);
    assert Read16(w, 2) == Read16(Word16(v / Two16), 0);
    Split32(v);
  }

  /** Reading at an offset inside a longer byte string reads the same word. */
  lemma Read32At(a: seq<byte>, w: seq<byte>, c: seq<byte>)
    requires |w| == 4
    ensures Read32(a + w + c, |a|) == Read32(w, 0)
  {
    var b := a + w + c;
    assert b[|a|] == w[0] && b[|a| + 1] == w[1] && b[|a| + 2] == w[2] && b[|a| + 3] == w[3];
  }

  /** The packed cells read back as their low 16 bits. */
  lemma {:induction false} CellsRead(a: seq<byte>, data: seq<int>)
    ensures ReadCells(a + Cells(data), |a|) == Low16(data)
    decreases |data|
  {
    if data != [] {
      var w := Word16(data[0]);
      var b := a + Cells(data);
      assert b == (a + w) + Cells(data[1..]);
      CellsRead(a + w, data[1..]);
      assert b[|a|] == w[0] && b[|a| + 1] == w[1];
      Word16Read(data[0]);
      assert Low16(data) == [data[0] % Two16] + Low16(data[1..]);
    } else {
      assert a + Cells(data) == a;
    }
  }

  // ---------------------------------------------------------------------------
  // Round trip
  // ---------------------------------------------------------------------------

  /**
   * `_load(_dump)` restores the sizes and the cells, each reduced to the bits
   * its field holds; the product field is not read back.
   */
  lemma LoadDump(t: Table)
    ensures Load(Dump(t)) == Some(Table(t.size % Two32, t.xsize % Two32, t.ysize % Two32, t.zsize % Two32, Low16(t.data)))
  {
    var w0, w1, w2, w3 := Word32(t.size), Word32(t.xsize), Word32(t.ysize), Word32(t.zsize);
    var w4 := Word32(t.xsize * t.ysize * t.zsize);
    var cells := Cells(t.data);
    var b := Dump(t);
    assert b == [] + w0 + (w1 + w2 + w3 + w4 + cells);
    assert b == w0 + w1 + (w2 + w3 + w4 + cells);
    assert b == w0 + w1 + w2 + (w3 + w4 + cells);
    assert b == w0 + w1 + w2 + w3 + (w4 + cells);
    assert b == (w0 + w1 + w2 + w3 + w4) + cells;
    Read32At([], w0, w1 + w2 + w3 + w4 + cells);
    Read32At(w0, w1, w2 + w3 + w4 + cells);
    Read32At(w0 + w1, w2, w3 + w4 + cells);
    Read32At(w0 + w1 + w2, w3, w4 + cells);
    Word32Read(t.size);
    Word32Read(t.xsize);
    Word32Read(t.ysize);
    Word32Read(t.zsize);
    CellsRead(w0 + w1 + w2 + w3 + w4, t.data);
  }

  /** A table whose sizes fit 32 bits and whose cells fit 16 bits comes back unchanged. */
  lemma LoadDumpFitting(t: Table)
    requires 0 <= t.size < Two32 && 0 <= t.xsize < Two32 && 0 <= t.ysize < Two32 && 0 <= t.zsize < Two32
    requires forall i :: 0 <= i < |t.data| ==> 0 <= t.data[i] < Two16
    ensures Load(Dump(t)) == Some(t)
  {
    LoadDump(t);
    SmallUnchanged(t.size, Two32);
    SmallUnchanged(t.xsize, Two32);
    SmallUnchanged(t.ysize, Two32);
    SmallUnchanged(t.zsize, Two32);
    forall i | 0 <= i < |t.data| ensures Low16(t.data)[i] == t.data[i] {
      SmallUnchanged(t.data[i], Two16);
    }
    assert Low16(t.data) == t.data;
  }

  lemma SmallUnchanged(v: int, m: int)
    requires 0 <= v < m
    ensures v % m == v
  {
  }

  /** A negative cell does not come back: `S` reads it as unsigned. */
  lemma NegativeCellChanges()
    ensures Load(Dump(Table(1, 1, 1, 1, [-1]))) == Some(Table(1, 1, 1, 1, [Two16 - 1]))
  {
    LoadDump(Table(1, 1, 1, 1, [-1]));
    assert Low16([-1]) == [Two16 - 1] by {
      assert Low16([-1])[0] == -1 % Two16 == Two16 - 1;
    }
  }

  /** A word read from two bytes packs back into them. */
  lemma Read16Word(b: seq<byte>, i: nat)
    requires i + 2 <= |b|
    ensures Word16(Read16(b, i)) == b[i..i + 2]
  {
  }

  /** A word read from four bytes packs back into them. */
  lemma Read32Word(b: seq<byte>, i: nat)
    requires i + 4 <= |b|
    ensures Word32(Read32(b, i)) == b[i..i + 4]
  {
    var lo, hi := Read16(b, i), Read16(b, i + 2);
    var v := lo + Two16 * hi;
    assert v % 256 == lo % 256 && (v / 256) % 256 == (lo / 256) % 256;
    assert v / Two16 == hi;
    Read16Word(b, i);
    Read16Word(b, i + 2);
    assert b[i..i + 4] == b[i..i + 2] + b[i + 2..i + 4];
  }

  /** The cells read from an even number of bytes pack back into them. */
  lemma {:induction false} ReadCellsPack(b: seq<byte>, i: nat)
    requires i <= |b| && (|b| - i) % 2 == 0
    ensures Cells(ReadCells(b, i)) == b[i..]
    decreases |b| - i
  {
    if i + 2 <= |b| {
      ReadCellsPack(b, i + 2);
      Read16Word(b, i);
      var data := ReadCells(b, i);
      assert data[0] == Read16(b, i) && data[1..] == ReadCells(b, i + 2);
      assert b[i..] == b[i..i + 2] + b[i + 2..];
    }
  }

  /**
   * `_dump(_load(b))` gives back a byte string of even length exactly when
   * its fifth word is the product of the three dimensions, modulo 2^32.
   */
  lemma DumpLoad(b: seq<byte>)
    requires |b| >= 20 && |b| % 2 == 0
    ensures Dump(Load(b).value) == b <==> Read32(b, 16) == (Read32(b, 4) * Read32(b, 8) * Read32(b, 12)) % Two32
  {
    var t := Load(b).value;
    var p := t.xsize * t.ysize * t.zsize;
    Read32Word(b, 0);
    Read32Word(b, 4);
    Read32Word(b, 8);
    Read32Word(b, 12);
    ReadCellsPack(b, 20);
    Word32Read(p);
    assert b == b[0..4] + b[4..8] + b[8..12] + b[12..16] + b[16..20] + b[20..];
    var front := Word32(t.size) + Word32(t.xsize) + Word32(t.ysize) + Word32(t.zsize);
    assert front == b[..16];
    if Read32(b, 16) == p % Two32 {
      Read32Word(b, 16);
      assert Word32(p) == Word32(p % Two32) by {
        Word32Low(p);
      }
    } else {
      var d := Dump(t);
      assert d == front + Word32(p) + Cells(t.data);
      Read32At(front, Word32(p), Cells(t.data));
      Read32At(b[..16], b[16..20], b[20..]);
      assert b == b[..16] + b[16..20] + b[20..];
    }
  }

  /** Packing keeps only the low 32 bits. */
  lemma Word32Low(v: int)
    ensures Word32(v) == Word32(v % Two32)
  {
    var w := Word32(v);
    Read32Word(w, 0);
    Word32Read(v);
    assert w[0..4] == w;
  }
}
