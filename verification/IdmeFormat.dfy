/** The layout of the IDME store: a header and 4-aligned records of different sizes in one buffer (cmd_idme_v2_0.c). */
module IdmeFormat {

  import opened Lz77

  type Bytes = seq<Byte>

  /** "beefdeed" and "2.1". */
  const MAGIC: Bytes := [0x62, 0x65, 0x65, 0x66, 0x64, 0x65, 0x65, 0x64]
  const VERSION: Bytes := [0x32, 0x2E, 0x31]

  /** A string that a name field has room for, with its terminator. */
  ghost predicate NameOk(n: Bytes) {
    1 <= |n| <= 15 && 0 !in n
  }

  /** The first n bytes of s, filled up with zeros if there are fewer. */
  function Padded(s: Bytes, n: nat): (r: Bytes)
    ensures |r| == n
  {
    if |s| >= n then s[..n] else s + Zeroes(n - |s|)
  }

  lemma PaddedBytes(s: Bytes, n: nat)
    ensures forall i :: 0 <= i < n ==> Padded(s, n)[i] == if i < |s| then s[i] else 0
  {
  }

  /** The characters of the two constants. */
  lemma HeaderSpells()
    ensures |MAGIC| == |"beefdeed"| && forall i :: 0 <= i < |MAGIC| ==> MAGIC[i] == "beefdeed"[i] as int
    ensures |VERSION| == |"2.1"| && forall i :: 0 <= i < |VERSION| ==> VERSION[i] == "2.1"[i] as int
  {
  }

  /** A string up to its terminator, or to the end of the field. */
  function CString(s: Bytes): Bytes {
    if s == [] || s[0] == 0 then [] else [s[0]] + CString(s[1..])
  }

  lemma {:induction false} CStringOfPadded(n: Bytes, size: nat)
    requires 0 !in n && |n| <= size
    ensures CString(Padded(n, size)) == n
  {
    if n != [] {
      CStringOfPadded(n[1..], size - 1);
      assert Padded(n, size)[1..] == Padded(n[1..], size - 1);
    }
  }

  /** An unsigned int, lowest byte first. */
  function Word32(v: Word): (b: Bytes)
    ensures |b| == 4
  {
    [v % 256, v / 256 % 256, v / 0x1_0000 % 256, v / 0x100_0000 % 256]
  }

  function UnWord32(b: Bytes): (v: Word)
    requires |b| == 4
  {
    var b1: int, b2: int, b3: int := b[1], b[2], b[3];
    b[0] + b1 * 256 + b2 * 0x1_0000 + b3 * 0x100_0000
  }

  lemma WordBack(v: Word)
    ensures UnWord32(Word32(v)) == v
  {
    var a, b, c := v / 256, v / 0x1_0000, v / 0x100_0000;
    assert v == a * 256 + v % 256 && a == b * 256 + a % 256 && b == c * 256 + b % 256;
  }

  /** What each byte counts for. */
  lemma WordPlaces(v: Word)
    ensures var b := Word32(v); var b1: int, b2: int, b3: int := b[1], b[2], b[3];
      v == b[0] + 256 * b1 + 256 * 256 * b2 + 256 * 256 * 256 * b3
  {
    WordBack(v);
  }

  /** A record: the descriptor and the data, which has the size that the descriptor says. */
  datatype Item = Item(name: Bytes, exportable: Word, permission: Word, data: Bytes)

  ghost predicate ItemOk(it: Item) {
    NameOk(it.name) && |it.data| < 0x1_0000_0000
  }

  /** What the descriptor looks like: 28 bytes. */
  function Desc(name: Bytes, size: Word, exportable: Word, permission: Word): (r: Bytes)
    ensures |r| == 28
  {
    Padded(name, 16) + Word32(size) + Word32(exportable) + Word32(permission)
  }

  ghost function Encoded(it: Item): (r: Bytes)
    requires ItemOk(it)
    ensures |r| == 28 + |it.data|
  {
    Desc(it.name, |it.data|, it.exportable, it.permission) + it.data
  }

  /** How far IDME_ITEM_NEXT moves on from a record with so much data. */
  function Span(size: nat): (r: nat)
    ensures r % 4 == 0 && 28 + size <= r < 28 + size + 4
  {
    (28 + size + 3) / 4 * 4
  }

  /** Where the records end that begin at off. */
  ghost function End(off: nat, items: seq<Item>): nat
    decreases |items|
  {
    if items == [] then off else End(off + Span(|items[0].data|), items[1..])
  }

  /** From off on, w holds these records one after the other. */
  ghost predicate Holds(w: Bytes, off: nat, items: seq<Item>)
    decreases |items|
  {
    items == [] ||
    (var it := items[0];
     ItemOk(it) && off + 28 + |it.data| <= |w| && w[off..off + 28 + |it.data|] == Encoded(it)
     && Holds(w, off + Span(|it.data|), items[1..]))
  }

  lemma {:induction false} EndOfMore(off: nat, items: seq<Item>, it: Item)
    ensures End(off, items + [it]) == End(off, items) + Span(|it.data|) && off <= End(off, items)
    decreases |items|
  {
    if items == [] {
      assert [it][1..] == [];
    } else {
      assert (items + [it])[1..] == items[1..] + [it];
      EndOfMore(off + Span(|items[0].data|), items[1..], it);
    }
  }

  lemma {:induction false} EndBeyond(off: nat, items: seq<Item>)
    ensures off <= End(off, items)
    decreases |items|
  {
    if items != [] {
      EndBeyond(off + Span(|items[0].data|), items[1..]);
    }
  }

  /** One record more at the end. */
  lemma {:induction false} HoldsMore(w: Bytes, off: nat, items: seq<Item>, it: Item)
    requires Holds(w, off, items) && ItemOk(it)
    requires var e := End(off, items); e + 28 + |it.data| <= |w| && w[e..e + 28 + |it.data|] == Encoded(it)
    ensures Holds(w, off, items + [it])
    decreases |items|
  {
    hide Encoded, ItemOk, Span;
    if items == [] {
      assert [it][1..] == [];
    } else {
      assert (items + [it])[1..] == items[1..] + [it];
      HoldsMore(w, off + Span(|items[0].data|), items[1..], it);
    }
  }

  /** Records do not depend on what lies outside them. */
  lemma {:induction false} HoldsKept(w: Bytes, w': Bytes, off: nat, items: seq<Item>)
    requires Holds(w, off, items) && |w'| == |w|
    requires forall k :: off <= k < End(off, items) && k < |w| ==> w'[k] == w[k]
    ensures Holds(w', off, items)
    decreases |items|
  {
    if items != [] {
      var n := 28 + |items[0].data|;
      EndBeyond(off + Span(|items[0].data|), items[1..]);
      assert w'[off..off + n] == w[off..off + n];
      HoldsKept(w, w', off + Span(|items[0].data|), items[1..]);
    }
  }

  /** The records from the i-th on. */
  lemma {:induction false} HoldsFrom(w: Bytes, off: nat, items: seq<Item>, i: nat)
    requires Holds(w, off, items) && i <= |items|
    ensures Holds(w, End(off, items[..i]), items[i..])
    decreases i
  {
    if i == 0 {
      assert items[..0] == [] && items[0..] == items;
    } else {
      assert items[..i][0] == items[0] && items[..i][1..] == items[1..][..i - 1] && items[i..] == items[1..][i - 1..];
      HoldsFrom(w, off + Span(|items[0].data|), items[1..], i - 1);
    }
  }

  lemma EndOfNext(off: nat, items: seq<Item>, i: nat)
    requires i < |items|
    ensures End(off, items[..i + 1]) == End(off, items[..i]) + Span(|items[i].data|)
  {
    assert items[..i + 1] == items[..i] + [items[i]];
    EndOfMore(off, items[..i], items[i]);
  }

  /** Records are aligned, and each ends before the next one begins. */
  lemma {:induction false} Apart(w: Bytes, off: nat, items: seq<Item>, i: nat, j: nat)
    requires Holds(w, off, items) && off % 4 == 0 && i < j <= |items|
    ensures End(off, items[..i]) % 4 == 0 && End(off, items[..i]) + 28 + |items[i].data| <= End(off, items[..j])
    ensures End(off, items[..i]) + 28 + |items[i].data| <= |w|
    decreases j
  {
    HoldsFrom(w, off, items, i);
    EndOfNext(off, items, i);
    EndAligned(off, items[..i]);
    if i + 1 < j {
      Apart(w, off, items, i, j - 1);
      EndOfNext(off, items, j - 1);
    }
  }

  lemma {:induction false} EndAligned(off: nat, items: seq<Item>)
    requires off % 4 == 0
    ensures End(off, items) % 4 == 0
    decreases |items|
  {
    if items != [] {
      EndAligned(off + Span(|items[0].data|), items[1..]);
    }
  }

  /** What the buffer holds as a whole: the header with the number of records, and the records. */
  ghost predicate Table(w: Bytes, items: seq<Item>) {
    && |w| >= 16 && |items| < 0x1_0000_0000 && w[..8] == MAGIC && w[12..16] == Word32(|items|) && Holds(w, 16, items)
  }

  /** What a record says of itself. */
  lemma Fields(w: Bytes, off: nat, it: Item)
    requires ItemOk(it) && off + 28 + |it.data| <= |w| && w[off..off + 28 + |it.data|] == Encoded(it)
    ensures CString(w[off..off + 16]) == it.name && w[off..off + 16] == Padded(it.name, 16)
    ensures UnWord32(w[off + 16..off + 20]) == |it.data| && UnWord32(w[off + 20..off + 24]) == it.exportable
    ensures UnWord32(w[off + 24..off + 28]) == it.permission && w[off + 28..off + 28 + |it.data|] == it.data
  {
    var v := w[off..off + 28 + |it.data|];
    var d := Desc(it.name, |it.data|, it.exportable, it.permission);
    DescParts(it.name, |it.data|, it.exportable, it.permission);
    assert v == d + it.data;
    Part(w, off, d, it.data, 0, 16);
    Part(w, off, d, it.data, 16, 20);
    Part(w, off, d, it.data, 20, 24);
    Part(w, off, d, it.data, 24, 28);
    assert d[0..16] == d[..16] && d[24..28] == d[24..];
    assert w[off + 28..off + 28 + |it.data|] == v[28..] == it.data;
    CStringOfPadded(it.name, 16);
    WordBack(|it.data|);
    WordBack(it.exportable);
    WordBack(it.permission);
  }

  /** The name field byte by byte. */
  lemma NameField(w: Bytes, off: nat, it: Item)
    requires ItemOk(it) && off + 28 + |it.data| <= |w| && w[off..off + 28 + |it.data|] == Encoded(it)
    ensures forall i :: 0 <= i < 16 ==> w[off + i] == if i < |it.name| then it.name[i] else 0
  {
    hide Padded, Encoded, CString, UnWord32;
    Fields(w, off, it);
    PaddedBytes(it.name, 16);
    forall i | 0 <= i < 16
      ensures w[off + i] == Padded(it.name, 16)[i]
    {
      assert w[off + i] == w[off..off + 16][i];
    }
  }

  lemma Part(w: Bytes, off: nat, d: Bytes, data: Bytes, i: nat, j: nat)
    requires off + |d| + |data| <= |w| && w[off..off + |d| + |data|] == d + data && i <= j <= |d|
    ensures w[off + i..off + j] == d[i..j]
  {
    var v := w[off..off + |d| + |data|];
    forall k | 0 <= k < j - i
      ensures w[off + i..off + j][k] == d[i..j][k]
    {
      assert v[i + k] == w[off + (i + k)] == d[i + k];
    }
  }

  lemma DescParts(name: Bytes, size: Word, exportable: Word, permission: Word)
    ensures var d := Desc(name, size, exportable, permission);
      && d[..16] == Padded(name, 16) && d[16..20] == Word32(size) && d[20..24] == Word32(exportable)
      && d[24..] == Word32(permission)
  {
    hide Padded, Word32;
    var a, b, c, e := Padded(name, 16), Word32(size), Word32(exportable), Word32(permission);
    var d := a + b + c + e;
    assert d[..16] == a && d[16..20] == b && d[20..24] == c && d[24..] == e;
  }
}
