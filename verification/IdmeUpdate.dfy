/** Bringing an IDME table up to date with a template (cmd_idme_v2_0.c, idme_update_table_v2p0). */
module IdmeUpdate {

  import opened Lz77
  import opened IdmeFormat
  import opened IdmeTable

  /**
   * What becomes of a template entry: an item of its own if the table has none of the name; else that item, with its
   * flags, and with its data laid over the default value unless the size has shrunk.
   */
  ghost function MergedItem(d: Default, items: seq<Item>): (it: Item)
    ensures it.name == d.name && |it.data| == d.size
  {
    var k := Find(items, d.name);
    var start := Padded(d.value, d.size);
    if k == |items| then DefaultItem(d)
    else
      var o := items[k];
      Item(d.name, o.exportable, o.permission, if d.size >= |o.data| then o.data + start[|o.data|..] else start)
  }

  ghost function Merged(ds: seq<Default>, items: seq<Item>): (r: seq<Item>)
    ensures |r| == |ds|
  {
    seq(|ds|, i requires 0 <= i < |ds| => MergedItem(ds[i], items))
  }

  /** Template entries that the table has no item for. */
  ghost function Added(ds: seq<Default>, items: seq<Item>): (n: nat)
    ensures n <= |ds|
  {
    if ds == [] then 0
    else Added(ds[..|ds| - 1], items) + if Find(items, ds[|ds| - 1].name) == |items| then 1 else 0
  }

  /** A template entry with another size than its item. */
  ghost predicate Resized(ds: seq<Default>, items: seq<Item>) {
    exists i :: 0 <= i < |ds| && SizeDiffers(ds[i], items)
  }

  ghost predicate SizeDiffers(d: Default, items: seq<Item>) {
    var k := Find(items, d.name); k < |items| && |items[k].data| != d.size
  }

  /** Whether the update finds anything to do: it counts what is added, what must have been deleted, and sizes. */
  ghost predicate NeedsUpdate(ds: seq<Default>, items: seq<Item>) {
    Added(ds, items) != 0 || |items| + Added(ds, items) != |ds| || Resized(ds, items)
  }

  /** There is nothing to do exactly when every entry has its item, of the same size, and there are no others. */
  lemma UpToDate(ds: seq<Default>, items: seq<Item>)
    ensures NeedsUpdate(ds, items) <==>
      !(|items| == |ds| && forall i :: 0 <= i < |ds| ==>
        Find(items, ds[i].name) < |items| && |items[Find(items, ds[i].name)].data| == ds[i].size)
  {
    NoneAdded(ds, items);
    if !NeedsUpdate(ds, items) {
      forall i | 0 <= i < |ds|
        ensures Find(items, ds[i].name) < |items| && |items[Find(items, ds[i].name)].data| == ds[i].size
      {
        assert !SizeDiffers(ds[i], items);
      }
    }
  }

  lemma {:induction false} NoneAdded(ds: seq<Default>, items: seq<Item>)
    ensures Added(ds, items) == 0 <==> forall i :: 0 <= i < |ds| ==> Find(items, ds[i].name) < |items|
  {
    if ds != [] {
      var init := ds[..|ds| - 1];
      NoneAdded(init, items);
      forall i | 0 <= i < |init|
        ensures init[i] == ds[i]
      {
      }
      assert Added(ds, items) == 0 ==> forall i :: 0 <= i < |init| ==> Find(items, init[i].name) < |items|;
    }
  }

  ghost predicate Distinct(ds: seq<Default>) {
    forall i, j :: 0 <= i < j < |ds| ==> ds[i].name != ds[j].name
  }

  /** A second run finds nothing to do. */
  lemma SecondRun(ds: seq<Default>, items: seq<Item>)
    requires Distinct(ds)
    ensures !NeedsUpdate(ds, Merged(ds, items))
  {
    var m := Merged(ds, items);
    forall i | 0 <= i < |ds|
      ensures Find(m, ds[i].name) == i && |m[i].data| == ds[i].size
    {
      assert forall j :: 0 <= j < |m| ==> m[j].name == ds[j].name;
      FindsFirst(m, ds[i].name, i);
    }
    UpToDate(ds, m);
  }

  /**
   * What a later read finds: an item that is still there and has not shrunk begins with its old bytes, and every
   * other one is the default. An item that was there keeps its flags, a new one has those of the template.
   */
  lemma Survivors(ds: seq<Default>, items: seq<Item>, i: nat)
    requires Distinct(ds) && i < |ds|
    ensures var m, k := Merged(ds, items), Find(items, ds[i].name);
      && Find(m, ds[i].name) == i
      && (k < |items| ==> m[i].exportable == items[k].exportable && m[i].permission == items[k].permission)
      && (k == |items| ==> m[i].exportable == ds[i].exportable && m[i].permission == ds[i].permission)
      && (k < |items| && |items[k].data| <= ds[i].size ==>
        items[k].data <= m[i].data
        && forall j :: |items[k].data| <= j < ds[i].size ==>
          m[i].data[j] == if j < |ds[i].value| then ds[i].value[j] else 0)
      && (k == |items| || |items[k].data| > ds[i].size ==> forall j :: 0 <= j < ds[i].size ==>
          m[i].data[j] == if j < |ds[i].value| then ds[i].value[j] else 0)
  {
    PaddedBytes(ds[i].value, ds[i].size);
    var m := Merged(ds, items);
    assert forall j :: 0 <= j < |m| ==> m[j].name == ds[j].name;
    FindsFirst(m, ds[i].name, i);
  }

  /** Sizes decide where records go, so what fits as default fits as merged. */
  lemma MergedFits(ds: seq<Default>, items: seq<Item>, n: nat)
    requires Fits(DefaultItems(ds), n)
    ensures Fits(Merged(ds, items), n)
  {
    var a, b := DefaultItems(ds), Merged(ds, items);
    forall i | 0 <= i < |b|
      ensures End(16, b[..i]) + 28 + |b[i].data| <= n
    {
      SameEnd(16, a[..i], b[..i]);
    }
  }

  lemma {:induction false} SameEnd(off: nat, a: seq<Item>, b: seq<Item>)
    requires |a| == |b| && forall i :: 0 <= i < |a| ==> |a[i].data| == |b[i].data|
    ensures End(off, a) == End(off, b)
    decreases |a|
  {
    if a != [] {
      SameEnd(off + Span(|a[0].data|), a[1..], b[1..]);
    }
  }

  /** Both header checks. */
  predicate Recognized(w: Bytes) {
    |w| >= 16 && w[..8] == MAGIC && w[8..11] == VERSION
  }

  /** Reads the record of the k-th item. */
  method ReadItem(buf: array<Byte>, from: nat, ghost items: seq<Item>, ghost k: nat)
    returns (size: Word, exportable: Word, permission: Word, data: Bytes)
    requires Table(buf[..], items) && k < |items| && from == End(16, items[..k])
    ensures size == |data| && data == items[k].data
    ensures exportable == items[k].exportable && permission == items[k].permission
  {
    hide Holds, End, CString, Word32, UnWord32, Encoded, Table;
    ghost var w := buf[..];
    RecordAt(w, items, k);
    assert buf[from + 16..from + 20] == w[from + 16..from + 20] && buf[from + 20..from + 24] == w[from + 20..from + 24];
    assert buf[from + 24..from + 28] == w[from + 24..from + 28];
    size, exportable := UnWord32(buf[from + 16..from + 20]), UnWord32(buf[from + 20..from + 24]);
    permission := UnWord32(buf[from + 24..from + 28]);
    data := buf[from + 28..from + 28 + size];
    assert data == w[from + 28..from + 28 + |items[k].data|];
  }

  /** One template entry: finds its item, and adds a record to the new table. */
  method MergeItem(buf: array<Byte>, into: array<Byte>, off: nat, d: Default, ghost items: seq<Item>, ghost done: seq<Item>)
    returns (found: bool, differs: bool)
    requires buf != into && Table(buf[..], items) && NameOk(d.name) && Holds(into[..], 16, done)
    requires 16 <= off == End(16, done) && off + 28 + d.size <= into.Length
    modifies into
    ensures found <==> Find(items, d.name) < |items|
    ensures differs <==> SizeDiffers(d, items)
    ensures Holds(into[..], 16, done + [MergedItem(d, items)])
    ensures into[..16] == old(into[..16])
  {
    hide Holds, End, CString, Word32, UnWord32, Encoded, With, Padded, Table, Desc;
    var from;
    found, from := Search(buf, d.name, items);
    differs := false;
    if found {
      var size, exportable, permission, data := ReadItem(buf, from, items, Find(items, d.name));
      differs := d.size != size;
      AddItem(into, off, d.name, d.size, exportable, permission, d.value, done);
      if d.size >= size {
        Overlay(into, off, data, done, Item(d.name, exportable, permission, Padded(d.value, d.size)));
      }
    } else {
      DefaultIs([d], 0);
      AddItem(into, off, d.name, d.size, d.exportable, d.permission, d.value, done);
    }
  }

  /** The last record gets old data laid over the beginning of its own. */
  method Overlay(buf: array<Byte>, off: nat, data: Bytes, ghost done: seq<Item>, ghost it: Item)
    requires Holds(buf[..], 16, done + [it]) && 16 <= off == End(16, done) && |data| <= |it.data| && ItemOk(it)
    requires off + 28 + |it.data| <= buf.Length
    modifies buf
    ensures Holds(buf[..], 16, done + [it.(data := data + it.data[|data|..])])
    ensures buf[..16] == old(buf[..16])
  {
    hide Holds, End, Encoded, With;
    ghost var w := buf[..];
    LastRecord(w, done, it);
    Put(buf, off + 28, data);
    WithFacts(w, off + 28, data);
    ghost var more := data + it.data[|data|..];
    LaidOver(w, buf[..], off + 28, data, it.data);
    LastReplaced(w, buf[..], done, it, more);
    assert forall k :: 0 <= k < 16 ==> buf[..][k] == w[k];
  }

  lemma LastRecord(w: Bytes, done: seq<Item>, it: Item)
    requires Holds(w, 16, done + [it])
    ensures var off := End(16, done);
      off + 28 + |it.data| <= |w| && ItemOk(it) && w[off..off + 28 + |it.data|] == Encoded(it)
      && w[off + 28..off + 28 + |it.data|] == it.data
  {
    hide Holds, Encoded, End;
    var items := done + [it];
    HoldsFrom(w, 16, items, |done|);
    assert items[..|done|] == done && items[|done|..] == [it];
    Single(w, End(16, done), it);
    Fields(w, End(16, done), it);
  }

  lemma Single(w: Bytes, off: nat, it: Item)
    requires Holds(w, off, [it])
    ensures off + 28 + |it.data| <= |w| && ItemOk(it) && w[off..off + 28 + |it.data|] == Encoded(it)
  {
    hide Encoded, ItemOk;
  }

  lemma LaidOver(w: Bytes, w': Bytes, at: nat, data: Bytes, before: Bytes)
    requires |data| <= |before| && at + |before| <= |w| && w[at..at + |before|] == before && w' == With(w, at, data)
    ensures Overwritten(w, w', at, data + before[|data|..])
  {
    forall i | 0 <= i < |before|
      ensures w'[at + i] == (data + before[|data|..])[i]
    {
      assert w[at..at + |before|][i] == before[i];
    }
  }

  lemma LastReplaced(w: Bytes, w': Bytes, done: seq<Item>, it: Item, data: Bytes)
    requires Holds(w, 16, done + [it]) && |data| == |it.data| && |w'| == |w|
    requires var at := End(16, done) + 28; at + |data| <= |w| && Overwritten(w, w', at, data)
    ensures Holds(w', 16, done + [it.(data := data)])
  {
    hide Holds, Overwritten, End;
    var items := done + [it];
    assert items[..|done|] == done;
    HoldsReplaced(w, w', 16, items, |done|, data);
    assert Replaced(items, |done|, data) == done + [it.(data := data)];
  }

  /**
   * idme_update_table_v2p0: -1 without a table of this version, -2 when the table is up to date, and 0 when it has
   * been replaced by the merged one.
   */
  method UpdateTable(buf: array<Byte>, ds: seq<Default>, ghost items: seq<Item>) returns (ret: int)
    requires buf.Length >= 16 && DefaultsOk(ds) && Fits(DefaultItems(ds), buf.Length)
    requires Recognized(buf[..]) ==> Table(buf[..], items)
    modifies buf
    ensures ret == 0 || ret == -1 || ret == -2
    ensures ret == -1 <==> !Recognized(old(buf[..]))
    ensures ret == 0 <==> Recognized(old(buf[..])) && NeedsUpdate(ds, items)
    ensures ret != 0 ==> buf[..] == old(buf[..])
    ensures ret == 0 ==> Table(buf[..], Merged(ds, items)) && Recognized(buf[..])
  {
    hide Holds, End, CString, Word32, UnWord32, Encoded, With, Padded, NeedsUpdate;
    ghost var w := buf[..];
    assert buf[..8] == w[..8] && buf[8..11] == w[8..11];
    if buf[..8] != MAGIC || buf[8..11] != VERSION {
      return -1;
    }
    var pnew := NewTable(buf);
    ghost var start := pnew[..16];
    var added, resized := MergeAll(buf, pnew, ds, items);
    WordBack(|items|);
    assert buf[12..16] == w[12..16];
    var deleted := UnWord32(buf[12..16]) + added - |ds|;
    ToDo(ds, items, added, resized);
    if added != 0 || deleted != 0 || resized {
      assert pnew[..][..12] == pnew[..16][..12] == start[..12] == w[..12];
      HeaderKept(w, pnew[..]);
      SetCount(pnew, |ds|, Merged(ds, items));
      Store(buf, 0, pnew[..]);
      assert buf[..] == pnew[..];
      assert pnew[..][8..11] == pnew[8..12][..3];
      return 0;
    }
    ret := -2;
  }

  lemma ToDo(ds: seq<Default>, items: seq<Item>, added: nat, resized: bool)
    requires added == Added(ds, items) && resized == Resized(ds, items)
    ensures NeedsUpdate(ds, items) <==> added != 0 || |items| + added - |ds| != 0 || resized
  {
  }

  lemma HeaderKept(w: Bytes, w': Bytes)
    requires |w| >= 16 && |w'| >= 16 && w'[..12] == w[..12] && w[..8] == MAGIC && w[8..11] == VERSION
    ensures w'[..8] == MAGIC && w'[8..11] == VERSION && w'[8..12][..3] == VERSION
  {
    assert w'[..8] == w'[..12][..8] && w'[8..11] == w'[..12][8..11] && w'[8..12][..3] == w'[8..11];
    assert w[..8] == w[..12][..8] && w[8..11] == w[..12][8..11];
  }

  /** A zeroed buffer with the magic number and the version of the old one. */
  method NewTable(buf: array<Byte>) returns (pnew: array<Byte>)
    requires buf.Length >= 16
    ensures fresh(pnew) && pnew.Length == buf.Length && pnew[..16][..12] == buf[..][..12] && Holds(pnew[..], 16, [])
  {
    pnew := new Byte[buf.Length](i => 0);
    Put(pnew, 0, buf[..8]);
    Put(pnew, 8, buf[8..12]);
    assert pnew[..16][..12] == buf[..8] + buf[8..12];
  }

  /** The loop over the template. */
  method MergeAll(buf: array<Byte>, pnew: array<Byte>, ds: seq<Default>, ghost items: seq<Item>)
    returns (added: nat, resized: bool)
    requires buf != pnew && Table(buf[..], items) && DefaultsOk(ds) && Fits(DefaultItems(ds), pnew.Length)
    requires Holds(pnew[..], 16, [])
    modifies pnew
    ensures added == Added(ds, items) && resized == Resized(ds, items)
    ensures Holds(pnew[..], 16, Merged(ds, items)) && pnew[..16] == old(pnew[..16])
  {
    hide Holds, End, Table, MergedItem, SizeDiffers;
    ghost var all := Merged(ds, items);
    MergedFits(ds, items, pnew.Length);
    added, resized := 0, false;
    var off, i := 16, 0;
    Nothing(pnew[..]);
    assert all[..0] == [] && ds[..0] == [];
    while i < |ds|
      invariant i <= |ds| && off == End(16, all[..i]) && Holds(pnew[..], 16, all[..i])
      invariant added == Added(ds[..i], items) && resized == Resized(ds[..i], items)
      invariant pnew[..16] == old(pnew[..16])
    {
      PlaceFor(all, pnew.Length, i);
      var found, differs := MergeItem(buf, pnew, off, ds[i], items, all[..i]);
      assert all[..i + 1] == all[..i] + [all[i]];
      assert ds[..i + 1][..i] == ds[..i] && ds[..i + 1][i] == ds[i];
      OneMoreResized(ds[..i + 1], items);
      resized := resized || differs;
      if !found {
        added := added + 1;
      }
      off := off + Span(ds[i].size);
      i := i + 1;
    }
    assert all[..i] == all && ds[..i] == ds;
  }

  lemma OneMoreResized(ds: seq<Default>, items: seq<Item>)
    requires ds != []
    ensures Resized(ds, items) <==> Resized(ds[..|ds| - 1], items) || SizeDiffers(ds[|ds| - 1], items)
  {
    hide SizeDiffers;
    var init := ds[..|ds| - 1];
    if Resized(init, items) {
      var i :| 0 <= i < |init| && SizeDiffers(init[i], items);
      assert SizeDiffers(ds[i], items);
    }
    if Resized(ds, items) {
      var i :| 0 <= i < |ds| && SizeDiffers(ds[i], items);
      if i < |init| {
        assert SizeDiffers(init[i], items);
      }
    }
  }
}
