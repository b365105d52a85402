/** Multi-level decoding tables: what walking them means, and what building them keeps (zlib.c, huft_build). */
module HuffmanTable {

  import opened Arith
  import opened BitStrings
  import opened HuffmanCode

  /**
   * A table slot. The C code has one structure for all: Exop below 16 and not 0 marks a link to a further table
   * of that many bits; Unset is memory that the builder never wrote.
   */
  datatype Huft =
    | Unset
    | Entry(exop: nat, bits: nat, base: nat)
    | Link(exop: nat, bits: nat, next: nat)

  type Table = seq<Huft>
  type Tables = seq<Table>

  datatype Walked =
    | Found(exop: nat, base: nat, used: nat)
    | Hole
    | NeedBits

  /**
   * Looking up the bits s from position w on, starting in table t of sz bits: the next sz bits pick a slot, the
   * slot says how many of them to drop, and a link says where to go on.
   */
  ghost function Walk(tabs: Tables, t: nat, sz: nat, w: nat, s: Bits): Walked
    decreases |tabs| - t
  {
    if t >= |tabs| then Hole
    else if w + sz > |s| then NeedBits
    else
      var j := LE(s[w..w + sz]);
      if j >= |tabs[t]| then Hole
      else match tabs[t][j]
        case Unset => Hole
        case Entry(exop, bits, base) => Found(exop, base, w + bits)
        case Link(exop, bits, next) => if next > t then Walk(tabs, next, exop, w + bits, s) else Hole
  }

  /** Slots are written once: tables are added and unset slots are set. */
  ghost predicate Extends(a: Tables, b: Tables) {
    && |a| <= |b|
    && forall t :: 0 <= t < |a| ==> TableExtends(a[t], b[t])
  }

  ghost predicate TableExtends(a: Table, b: Table) {
    |a| == |b| && forall j :: 0 <= j < |a| && a[j] != Unset ==> b[j] == a[j]
  }

  lemma {:induction false} WalkStable(a: Tables, b: Tables, t: nat, sz: nat, w: nat, s: Bits)
    requires Extends(a, b) && Walk(a, t, sz, w, s).Found?
    ensures Walk(b, t, sz, w, s) == Walk(a, t, sz, w, s)
    decreases |a| - t
  {
    var j := LE(s[w..w + sz]);
    if a[t][j].Link? {
      WalkStable(a, b, a[t][j].next, a[t][j].exop, w + a[t][j].bits, s);
    }
  }

  /** Where a table stands: the bits that lead to it, how many bits it looks up, and the table that links to it. */
  datatype Place = Place(prefix: Bits, size: nat, parent: nat)

  ghost predicate PlaceOk(tabs: Tables, tree: seq<Place>, l: nat, t: nat)
    requires t < |tree| <= |tabs|
  {
    var p := tree[t];
    && |tabs[t]| == Pow2(p.size) && |p.prefix| + p.size <= 15
    && if t == 0 then p.prefix == [] && p.size == l
       else
         && p.parent < t && tree[p.parent].size == l
         && |p.prefix| == |tree[p.parent].prefix| + l
         && p.prefix[..|p.prefix| - l] == tree[p.parent].prefix
         && LE(p.prefix[|p.prefix| - l..]) < |tabs[p.parent]|
         && tabs[p.parent][LE(p.prefix[|p.prefix| - l..])] == Link(p.size, l, t)
  }

  ghost predicate TreeOk(tabs: Tables, tree: seq<Place>, l: nat) {
    && |tree| <= |tabs|
    && forall t :: 0 <= t < |tree| ==> PlaceOk(tabs, tree, l, t)
  }

  lemma TreeStable(a: Tables, b: Tables, tree: seq<Place>, l: nat)
    requires Extends(a, b) && TreeOk(a, tree, l)
    ensures TreeOk(b, tree, l)
  {
    forall t | 0 <= t < |tree|
      ensures PlaceOk(b, tree, l, t)
    {
      assert PlaceOk(a, tree, l, t);
    }
  }

  /** A walk from the root along the prefix of a table goes through that table. */
  lemma {:induction false} WalkThrough(tabs: Tables, tree: seq<Place>, l: nat, t: nat, s: Bits)
    requires TreeOk(tabs, tree, l) && t < |tree|
    requires tree[t].prefix <= s
    ensures Walk(tabs, 0, l, 0, s) == Walk(tabs, t, tree[t].size, |tree[t].prefix|, s)
    decreases t
  {
    assert PlaceOk(tabs, tree, l, t);
    if t > 0 {
      var p := tree[t];
      var w := |p.prefix| - l;
      assert s[..w] == p.prefix[..w];
      assert s[w..w + l] == p.prefix[w..];
      WalkThrough(tabs, tree, l, p.parent, s);
    }
  }
}
