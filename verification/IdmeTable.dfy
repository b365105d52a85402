/** Making, reading and changing the IDME store, and bringing it up to date with a template (cmd_idme_v2_0.c). */
module IdmeTable {

  import opened Arith
  import opened Lz77
  import opened IdmeFormat

  /** An entry of the template: the descriptor of an item and the string that it starts with. */
  datatype Default = Default(name: Bytes, size: Word, exportable: Word, permission: Word, value: Bytes)

  ghost predicate DefaultsOk(ds: seq<Default>) {
    |ds| < 0x1_0000_0000 && forall i :: 0 <= i < |ds| ==> NameOk(ds[i].name) && 0 !in ds[i].value
  }

  function DefaultItem(d: Default): Item {
    Item(d.name, d.exportable, d.permission, Padded(d.value, d.size))
  }

  function DefaultItems(ds: seq<Default>): (items: seq<Item>)
    ensures |items| == |ds|
  {
    seq(|ds|, i requires 0 <= i < |ds| => DefaultItem(ds[i]))
  }

  /** Where every record ends within n bytes. */
  ghost predicate Fits(items: seq<Item>, n: nat) {
    16 <= n && forall i :: 0 <= i < |items| ==> End(16, items[..i]) + 28 + |items[i].data| <= n
  }

  /** memcpy into the buffer. */
  method Store(buf: array<Byte>, off: nat, b: Bytes)
    requires off + |b| <= buf.Length
    modifies buf
    ensures buf[..] == old(buf[..off]) + b + old(buf[off + |b|..])
  {
    var i := 0;
    while i < |b|
      invariant i <= |b|
      invariant forall k :: 0 <= k < buf.Length ==> buf[k] == if off <= k < off + i then b[k - off] else old(buf[k])
    {
      buf[off + i] := b[i];
      i := i + 1;
    }
  }

  /** w with the bytes from off on replaced by b. */
  ghost function With(w: Bytes, off: nat, b: Bytes): (r: Bytes)
    requires off + |b| <= |w|
    ensures |r| == |w|
  {
    w[..off] + b + w[off + |b|..]
  }

  lemma WithTwice(w: Bytes, off: nat, a: Bytes, b: Bytes)
    requires off + |a| + |b| <= |w|
    ensures With(With(w, off, a), off + |a|, b) == With(w, off, a + b)
    ensures With(With(w, off + |a|, b), off, a) == With(w, off, a + b)
  {
  }

  /** The part of a stretch that was written last hides what was there. */
  lemma WithOver(w: Bytes, off: nat, a: Bytes, b: Bytes)
    requires off + |a| <= |w| && |b| <= |a|
    ensures With(With(w, off, a), off, b) == With(w, off, b + a[|b|..])
  {
  }

  lemma WithFacts(w: Bytes, off: nat, b: Bytes)
    requires off + |b| <= |w|
    ensures With(w, off, b)[off..off + |b|] == b
    ensures forall k :: 0 <= k < |w| && !(off <= k < off + |b|) ==> With(w, off, b)[k] == w[k]
  {
  }

  /** memset to 0 and then a copy that may be shorter. */
  method StorePadded(buf: array<Byte>, off: nat, s: Bytes, n: nat)
    requires off + n <= buf.Length
    modifies buf
    ensures buf[..] == With(old(buf[..]), off, Padded(s, n))
  {
    ghost var w := buf[..];
    Store(buf, off, Zeroes(n));
    assert buf[..] == With(w, off, Zeroes(n));
    var k := Min(n, |s|);
    Store(buf, off, s[..k]);
    WithOver(w, off, Zeroes(n), s[..k]);
    assert s[..k] + Zeroes(n)[k..] == Padded(s, n);
  }

  /** IDME_ITEM_INIT, for a record that is within the limit. */
  method InitItem(buf: array<Byte>, off: nat, name: Bytes, size: Word, exportable: Word, permission: Word, value: Bytes)
    requires off + 28 + size <= buf.Length && NameOk(name)
    modifies buf
    ensures buf[..] == With(old(buf[..]), off, Encoded(Item(name, exportable, permission, Padded(value, size))))
  {
    hide With, Padded, Word32;
    ghost var w := buf[..];
    ghost var data, n := Padded(value, size), Padded(name, 16);
    ghost var a, b, c := Word32(size), Word32(exportable), Word32(permission);
    StorePadded(buf, off + 28, value, size);
    StorePadded(buf, off, name, 16);
    Put(buf, off + 16, Word32(size));
    Put(buf, off + 20, Word32(exportable));
    Put(buf, off + 24, Word32(permission));
    FivePieces(w, off, n, a, b, c, data);
  }

  method Put(buf: array<Byte>, off: nat, b: Bytes)
    requires off + |b| <= buf.Length
    modifies buf
    ensures buf[..] == With(old(buf[..]), off, b)
  {
    Store(buf, off, b);
  }

  /** A record written in five pieces, the last one first. */
  lemma FivePieces(w: Bytes, off: nat, n: Bytes, a: Bytes, b: Bytes, c: Bytes, data: Bytes)
    requires |n| == 16 && |a| == |b| == |c| == 4 && off + 28 + |data| <= |w|
    ensures With(With(With(With(With(w, off + 28, data), off, n), off + 16, a), off + 20, b), off + 24, c)
         == With(w, off, n + a + b + c + data)
  {
    hide With;
    var v := With(w, off + 28, data);
    WithTwice(v, off, n, a);
    WithTwice(v, off, n + a, b);
    WithTwice(v, off, n + a + b, c);
    WithTwice(w, off, n + a + b + c, data);
  }

  /** Adds a record after those that the buffer holds. */
  method AddItem(buf: array<Byte>, off: nat, name: Bytes, size: Word, exportable: Word, permission: Word, value: Bytes,
                 ghost items: seq<Item>)
    requires off + 28 + size <= buf.Length && NameOk(name) && 16 <= off == End(16, items) && Holds(buf[..], 16, items)
    modifies buf
    ensures Holds(buf[..], 16, items + [Item(name, exportable, permission, Padded(value, size))])
    ensures buf[..16] == old(buf[..16])
    ensures off + 28 + size <= buf.Length && buf[off + 28..off + 28 + size] == Padded(value, size)
    ensures forall k :: 0 <= k < buf.Length && !(off <= k < off + 28 + size) ==> buf[k] == old(buf[k])
  {
    hide Holds, Encoded, With, Padded, End;
    ghost var w := buf[..];
    ghost var it := Item(name, exportable, permission, Padded(value, size));
    InitItem(buf, off, name, size, exportable, permission, value);
    WithFacts(w, off, Encoded(it));
    HoldsKept(w, buf[..], 16, items);
    HoldsMore(buf[..], 16, items, it);
    Fields(buf[..], off, it);
    assert buf[off + 28..off + 28 + size] == buf[..][off + 28..off + 28 + |it.data|];
  }

  /** The byte belongs to one of the first n records. */
  ghost predicate InRecords(items: seq<Item>, n: nat, k: nat)
    requires n <= |items|
  {
    exists i :: 0 <= i < n && InRecord(items, i, k)
  }

  ghost predicate InRecord(items: seq<Item>, i: nat, k: nat)
    requires i < |items|
  {
    End(16, items[..i]) <= k < End(16, items[..i]) + 28 + |items[i].data|
  }

  lemma OneMoreRecord(items: seq<Item>, n: nat, k: nat)
    requires n < |items|
    ensures InRecords(items, n + 1, k) <==> InRecords(items, n, k) || InRecord(items, n, k)
  {
    hide InRecord;
  }

  /** The default items: the data begins with the value, and is 0 from there on. */
  lemma DefaultBytes(ds: seq<Default>, i: nat)
    requires i < |ds|
    ensures var it := DefaultItems(ds)[i];
      && it.name == ds[i].name && it.exportable == ds[i].exportable && it.permission == ds[i].permission
      && |it.data| == ds[i].size
      && forall j :: 0 <= j < ds[i].size ==> it.data[j] == if j < |ds[i].value| then ds[i].value[j] else 0
  {
    PaddedBytes(ds[i].value, ds[i].size);
  }

  /** Every byte after the header that is in none of the first n records is 0. */
  ghost predicate ClearBeside(w: Bytes, items: seq<Item>, n: nat)
    requires n <= |items|
  {
    forall k :: 16 <= k < |w| && !InRecords(items, n, k) ==> w[k] == 0
  }

  lemma StaysClear(w: Bytes, w': Bytes, items: seq<Item>)
    requires ClearBeside(w, items, |items|) && |w'| == |w| && forall k :: 16 <= k < |w| ==> w'[k] == w[k]
    ensures forall k :: 16 <= k < |w| && !InRecords(items, |items|, k) ==> w'[k] == 0
  {
    hide InRecords;
  }

  /**
   * idme_init_var_v2p0: a table of the template's items with their default values. Every byte outside the header and
   * the records is 0.
   */
  method InitVar(buf: array<Byte>, ds: seq<Default>)
    requires DefaultsOk(ds) && Fits(DefaultItems(ds), buf.Length)
    modifies buf
    ensures Table(buf[..], DefaultItems(ds)) && buf[8..11] == VERSION
    ensures forall i, j :: 0 <= i < |ds| && 0 <= j < ds[i].size ==>
      DefaultItems(ds)[i].data[j] == if j < |ds[i].value| then ds[i].value[j] else 0
    ensures buf[11] == 0
    ensures forall k :: 16 <= k < buf.Length && !InRecords(DefaultItems(ds), |ds|, k) ==> buf[k] == 0
  {
    hide Holds, Padded, End, DefaultItem, DefaultItems, Word32, ClearBeside;
    forall i | 0 <= i < |ds|
      ensures |DefaultItems(ds)[i].data| == ds[i].size
      ensures forall j :: 0 <= j < ds[i].size ==>
        DefaultItems(ds)[i].data[j] == if j < |ds[i].value| then ds[i].value[j] else 0
    {
      DefaultBytes(ds, i);
    }
    var n := buf.Length;
    NewHeader(buf, DefaultItems(ds));
    ghost var all := DefaultItems(ds);
    var off, i := 16, 0;
    Nothing(buf[..]);
    assert all[..0] == [];
    while i < |ds|
      invariant i <= |ds| && off == End(16, all[..i]) && Holds(buf[..], 16, all[..i]) && ClearBeside(buf[..], all, i)
      invariant buf[..8] == MAGIC && buf[8..11] == VERSION && buf[11] == 0
    {
      AddDefault(buf, off, ds, i);
      PlaceFor(all, n, i);
      DefaultBytes(ds, i);
      assert buf[..8] == buf[..16][..8] && buf[8..11] == buf[..16][8..11] && buf[11] == buf[..16][11];
      off := off + Span(ds[i].size);
      i := i + 1;
    }
    assert all[..i] == all;
    ghost var w := buf[..];
    SetCount(buf, |ds|, all);
    StaysClear(w, buf[..], all);
  }

  /** The magic number and the version in a buffer that is otherwise 0. */
  method NewHeader(buf: array<Byte>, ghost items: seq<Item>)
    requires buf.Length >= 16
    modifies buf
    ensures buf[..8] == MAGIC && buf[8..11] == VERSION && buf[11] == 0 && ClearBeside(buf[..], items, 0)
  {
    Clear(buf);
    Put(buf, 0, MAGIC);
    Put(buf, 8, VERSION);
    assert forall k :: 11 <= k < buf.Length ==> buf[k] == buf[..][k] == 0;
  }

  /** One template entry becomes the next record. */
  method AddDefault(buf: array<Byte>, off: nat, ds: seq<Default>, i: nat)
    requires DefaultsOk(ds) && Fits(DefaultItems(ds), buf.Length) && i < |ds|
    requires var all := DefaultItems(ds);
      off == End(16, all[..i]) && Holds(buf[..], 16, all[..i]) && ClearBeside(buf[..], all, i)
    modifies buf
    ensures var all := DefaultItems(ds); Holds(buf[..], 16, all[..i + 1]) && ClearBeside(buf[..], all, i + 1)
    ensures buf[..16] == old(buf[..16])
  {
    hide Holds, Padded, End, DefaultItem, DefaultItems, InRecords;
    ghost var all := DefaultItems(ds);
    var d := ds[i];
    PlaceFor(all, buf.Length, i);
    DefaultIs(ds, i);
    ghost var w := buf[..];
    AddItem(buf, off, d.name, d.size, d.exportable, d.permission, d.value, all[..i]);
    assert all[..i + 1] == all[..i] + [all[i]];
    RecordClear(w, buf[..], all, i);
  }

  lemma RecordClear(w: Bytes, w': Bytes, items: seq<Item>, i: nat)
    requires i < |items| && |w| == |w'| && ClearBeside(w, items, i)
    requires var off := End(16, items[..i]);
      forall k :: 0 <= k < |w| && !(off <= k < off + 28 + |items[i].data|) ==> w'[k] == w[k]
    ensures ClearBeside(w', items, i + 1)
  {
    hide InRecords, End;
    forall k | 16 <= k < |w| && !InRecords(items, i + 1, k)
      ensures w'[k] == 0
    {
      OneMoreRecord(items, i, k);
    }
  }

  /** memset over the whole buffer. */
  method Clear(buf: array<Byte>)
    modifies buf
    ensures forall k :: 0 <= k < buf.Length ==> buf[k] == 0
  {
    Store(buf, 0, Zeroes(buf.Length));
    assert buf[..] == Zeroes(buf.Length);
  }

  lemma DefaultIs(ds: seq<Default>, i: nat)
    requires i < |ds|
    ensures var d := ds[i]; DefaultItems(ds)[i] == DefaultItem(d) == Item(d.name, d.exportable, d.permission, Padded(d.value, d.size))
  {
  }

  lemma Nothing(w: Bytes)
    ensures Holds(w, 16, []) && End(16, []) == 16
  {
  }

  /** Where the i-th record goes, and the one after it. */
  lemma PlaceFor(items: seq<Item>, n: nat, i: nat)
    requires Fits(items, n) && i < |items|
    ensures 16 <= End(16, items[..i]) && End(16, items[..i]) + 28 + |items[i].data| <= n
    ensures End(16, items[..i + 1]) == End(16, items[..i]) + Span(|items[i].data|)
  {
    EndBeyond(16, items[..i]);
    EndOfNext(16, items, i);
  }

  /** items_num = n. */
  method SetCount(buf: array<Byte>, n: Word, ghost items: seq<Item>)
    requires buf.Length >= 16 && Holds(buf[..], 16, items) && |items| == n && buf[..8] == MAGIC
    modifies buf
    ensures Table(buf[..], items) && buf[8..12] == old(buf[8..12])
    ensures forall k :: 0 <= k < buf.Length && !(12 <= k < 16) ==> buf[k] == old(buf[k])
  {
    hide Holds, Word32, With;
    ghost var w := buf[..];
    Put(buf, 12, Word32(n));
    WithFacts(w, 12, Word32(n));
    HoldsKept(w, buf[..], 16, items);
    assert forall k :: 0 <= k < 12 ==> buf[..][k] == w[k];
    assert buf[12..16] == buf[..][12..16];
  }

  /** The first record with the name, or the number of records if there is none. */
  function Find(items: seq<Item>, name: Bytes): (i: nat)
    ensures i <= |items| && (i < |items| ==> items[i].name == name)
    ensures forall j :: 0 <= j < i ==> items[j].name != name
  {
    if items == [] then 0 else if items[0].name == name then 0 else 1 + Find(items[1..], name)
  }

  /** The first record is the one that is found. */
  lemma {:induction false} FindsFirst(items: seq<Item>, name: Bytes, i: nat)
    requires i <= |items| && (i < |items| ==> items[i].name == name) && forall j :: 0 <= j < i ==> items[j].name != name
    ensures Find(items, name) == i
  {
  }

  /** The loop that looks for a name, comparing strings. off is where its record begins. */
  method Search(buf: array<Byte>, name: Bytes, ghost items: seq<Item>) returns (found: bool, off: nat)
    requires Table(buf[..], items) && 0 !in name
    ensures found <==> Find(items, name) < |items|
    ensures found ==> off == End(16, items[..Find(items, name)])
  {
    hide Holds, End, CString, Word32, UnWord32, Encoded, ItemOk;
    var w := buf[..];
    WordBack(|items|);
    assert buf[12..16] == w[12..16];
    var count := UnWord32(buf[12..16]);
    off := 16;
    var i := 0;
    Nothing(w);
    assert items[..0] == [];
    while i < count
      invariant i <= count == |items| && off == End(16, items[..i])
      invariant forall j :: 0 <= j < i ==> items[j].name != name
    {
      RecordAt(w, items, i);
      assert buf[off..off + 16] == w[off..off + 16] && buf[off + 16..off + 20] == w[off + 16..off + 20];
      if CString(buf[off..off + 16]) == name {
        FindsFirst(items, name, i);
        return true, off;
      }
      off := off + Span(UnWord32(buf[off + 16..off + 20]));
      i := i + 1;
    }
    FindsFirst(items, name, i);
    found := false;
  }

  /** What is to be found at the i-th record. */
  lemma RecordAt(w: Bytes, items: seq<Item>, i: nat)
    requires Table(w, items) && i < |items|
    ensures var off, it := End(16, items[..i]), items[i];
      && off >= 16 && off + 28 + |it.data| <= |w| && ItemOk(it) && w[off..off + 28 + |it.data|] == Encoded(it)
      && CString(w[off..off + 16]) == it.name && UnWord32(w[off + 16..off + 20]) == |it.data|
      && UnWord32(w[off + 20..off + 24]) == it.exportable && UnWord32(w[off + 24..off + 28]) == it.permission
      && w[off + 28..off + 28 + |it.data|] == it.data
      && End(16, items[..i + 1]) == off + Span(|it.data|)
  {
    hide Encoded, CString, Word32, UnWord32;
    HoldsFrom(w, 16, items, i);
    EndBeyond(16, items[..i]);
    EndOfNext(16, items, i);
    var off := End(16, items[..i]);
    assert items[i..][0] == items[i];
    Fields(w, off, items[i]);
  }

  /** idme_get_var_v2p0: the first length bytes of an item. */
  method GetVar(buf: array<Byte>, name: Bytes, length: nat, ghost items: seq<Item>) returns (ret: int, out: Bytes)
    requires buf.Length >= 16 && 0 !in name && (buf[..8] == MAGIC ==> Table(buf[..], items))
    ensures ret == 0 || ret == -1
    ensures ret == 0 <==> buf[..8] == MAGIC && Find(items, name) < |items|
    ensures ret == 0 ==> var it := items[Find(items, name)]; out == it.data[..Min(|it.data|, length)]
  {
    hide Holds, End, CString, Word32, UnWord32, Encoded;
    if buf[..8] != MAGIC {
      return -1, [];
    }
    var found, off := Search(buf, name, items);
    if !found {
      return -1, [];
    }
    ghost var k := Find(items, name);
    RecordAt(buf[..], items, k);
    assert buf[off + 16..off + 20] == buf[..][off + 16..off + 20];
    var size := UnWord32(buf[off + 16..off + 20]);
    out := buf[off + 28..off + 28 + Min(size, length)];
    assert out == buf[..][off + 28..off + 28 + |items[k].data|][..Min(size, length)];
    ret := 0;
  }

  /** The table with the data of one item replaced. */
  ghost function Replaced(items: seq<Item>, k: nat, data: Bytes): seq<Item>
    requires k < |items|
  {
    items[k := items[k].(data := data)]
  }

  /** Every name is found where it was. */
  lemma {:induction false} FoundWhereItWas(items: seq<Item>, k: nat, data: Bytes, name: Bytes)
    requires k < |items|
    ensures Find(Replaced(items, k, data), name) == Find(items, name)
  {
    FindsFirst(Replaced(items, k, data), name, Find(items, name));
  }

  /**
   * idme_update_var_v2p0: the first length bytes of the value, or as many as there is room for, become the data of the
   * item, and the rest of the data becomes 0. No other byte changes, so the other items stay what they are.
   */
  method UpdateVar(buf: array<Byte>, name: Bytes, value: Bytes, length: nat, ghost items: seq<Item>) returns (ret: int)
    requires buf.Length >= 16 && 0 !in name && length <= |value| && (buf[..8] == MAGIC ==> Table(buf[..], items))
    modifies buf
    ensures ret == 0 || ret == -1
    ensures ret == 0 <==> old(buf[..8]) == MAGIC && Find(items, name) < |items|
    ensures ret == -1 ==> buf[..] == old(buf[..])
    ensures ret == 0 ==>
      var k := Find(items, name);
      var at, size := End(16, items[..k]) + 28, |items[k].data|;
      && at + size <= buf.Length && Table(buf[..], Replaced(items, k, buf[at..at + size]))
      && (forall i :: at <= i < at + size ==> buf[i] == if i - at < length then value[i - at] else 0)
      && (forall i :: 0 <= i < buf.Length && !(at <= i < at + size) ==> buf[i] == old(buf[i]))
  {
    hide Holds, End, CString, Word32, UnWord32, Encoded, With, Padded;
    if buf[..8] != MAGIC {
      return -1;
    }
    var found, off := Search(buf, name, items);
    if !found {
      return -1;
    }
    ghost var w, k := buf[..], Find(items, name);
    RecordAt(w, items, k);
    assert buf[off + 16..off + 20] == w[off + 16..off + 20];
    var size := UnWord32(buf[off + 16..off + 20]);
    ghost var data := Padded(value[..length], size);
    StorePadded(buf, off + 28, value[..length], size);
    ReplacedHolds(w, buf[..], items, k, data);
    Written(w, buf[..], off + 28, value, length, size);
    assert buf[off + 28..off + 28 + size] == buf[..][off + 28..off + 28 + size];
    ret := 0;
  }

  lemma Written(w: Bytes, w': Bytes, at: nat, value: Bytes, length: nat, size: nat)
    requires length <= |value| && at + size <= |w| && w' == With(w, at, Padded(value[..length], size))
    ensures w'[at..at + size] == Padded(value[..length], size)
    ensures forall i :: at <= i < at + size ==> w'[i] == if i - at < length then value[i - at] else 0
    ensures forall i :: 0 <= i < |w| && !(at <= i < at + size) ==> w'[i] == w[i]
  {
    hide Padded;
    var data := Padded(value[..length], size);
    WithFacts(w, at, data);
    PaddedBytes(value[..length], size);
    forall i | at <= i < at + size
      ensures w'[i] == if i - at < length then value[i - at] else 0
    {
      assert w'[i] == w'[at..at + size][i - at] == data[i - at];
    }
  }

  /** Records before and after one whose data is overwritten stay where and what they are. */
  lemma ReplacedHolds(w: Bytes, w': Bytes, items: seq<Item>, k: nat, data: Bytes)
    requires Table(w, items) && k < |items| && |data| == |items[k].data|
    requires var off := End(16, items[..k]); off + 28 + |data| <= |w| && w' == With(w, off + 28, data)
    ensures Table(w', Replaced(items, k, data))
  {
    hide With, Encoded, CString;
    RecordAt(w, items, k);
    WithFacts(w, End(16, items[..k]) + 28, data);
    assert w'[..8] == w[..8] && w'[12..16] == w[12..16];
    HoldsReplaced(w, w', 16, items, k, data);
  }

  lemma {:induction false} HoldsReplaced(w: Bytes, w': Bytes, off: nat, items: seq<Item>, k: nat, data: Bytes)
    requires Holds(w, off, items) && k < |items| && |data| == |items[k].data| && |w'| == |w|
    requires var at := End(off, items[..k]) + 28; at + |data| <= |w| && Overwritten(w, w', at, data)
    ensures Holds(w', off, Replaced(items, k, data))
    decreases k
  {
    hide Encoded, Span, Overwritten, ItemOk;
    var it := items[0];
    var next := off + Span(|it.data|);
    var changed := Replaced(items, k, data);
    if k == 0 {
      assert items[..0] == [] && changed[1..] == items[1..];
      FirstReplaced(w, w', off, items, data);
    } else {
      assert items[..k][0] == it && items[..k][1..] == items[1..][..k - 1];
      EndBeyond(next, items[1..][..k - 1]);
      Before(w, w', End(off, items[..k]) + 28, data, off, off + 28 + |it.data|);
      HoldsReplaced(w, w', next, items[1..], k - 1, data);
      assert changed[0] == it && changed[1..] == Replaced(items[1..], k - 1, data);
    }
  }

  /** Only the bytes from at on have changed, and are now the data. */
  ghost predicate Overwritten(w: Bytes, w': Bytes, at: nat, data: Bytes)
    requires at + |data| <= |w| == |w'|
  {
    w'[at..at + |data|] == data && forall i :: 0 <= i < |w| && !(at <= i < at + |data|) ==> w'[i] == w[i]
  }

  lemma Before(w: Bytes, w': Bytes, at: nat, data: Bytes, i: nat, j: nat)
    requires at + |data| <= |w| == |w'| && Overwritten(w, w', at, data) && i <= j <= at
    ensures w'[i..j] == w[i..j]
  {
  }

  lemma FirstReplaced(w: Bytes, w': Bytes, off: nat, items: seq<Item>, data: Bytes)
    requires Holds(w, off, items) && items != [] && |data| == |items[0].data| && |w'| == |w|
    requires off + 28 + |data| <= |w| && Overwritten(w, w', off + 28, data)
    ensures Holds(w', off, Replaced(items, 0, data))
  {
    hide Encoded;
    assert Replaced(items, 0, data)[1..] == items[1..];
    SameDesc(w, w', off, items[0], data);
    HoldsKept(w, w', off + Span(|items[0].data|), items[1..]);
  }

  /** Overwriting the data of a record leaves its descriptor. */
  lemma SameDesc(w: Bytes, w': Bytes, off: nat, it: Item, data: Bytes)
    requires ItemOk(it) && |data| == |it.data| && |w'| == |w| && off + 28 + |data| <= |w|
    requires w[off..off + 28 + |data|] == Encoded(it)
    requires w'[off + 28..off + 28 + |data|] == data && forall i :: 0 <= i < off + 28 ==> w'[i] == w[i]
    ensures w'[off..off + 28 + |data|] == Encoded(it.(data := data))
  {
    hide Desc;
    var d := Desc(it.name, |it.data|, it.exportable, it.permission);
    Part(w, off, d, it.data, 0, 28);
    assert d[0..28] == d && w'[off..off + 28] == w[off..off + 28];
    assert w'[off..off + 28 + |data|] == w'[off..off + 28] + w'[off + 28..off + 28 + |data|];
  }
}
