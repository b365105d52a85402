/** The SHA-2 compression functions: the loops over the work variables, and the unrolled form of them (apiSHA.c). */
module ShaRounds {

  /** The words of SHA-256 or SHA-512: addition, the logical functions, and the round constants. */
  datatype Ops<!W> = Ops(
    add: (W, W) -> W, f1: W -> W, f2: W -> W, f3: W -> W, f4: W -> W,
    ch: (W, W, W) -> W, maj: (W, W, W) -> W, k: seq<W>)

  /** The eight working variables of section 6 of FIPS 180-2. */
  datatype Work<W> = Work(a: W, b: W, c: W, d: W, e: W, f: W, g: W, h: W)

  /** The message schedule: the first 16 words are those of the block. */
  function Schedule<W>(o: Ops<W>, m: seq<W>, t: nat): W
    requires |m| == 16
  {
    if t < 16 then m[t]
    else
      o.add(o.add(o.add(o.f4(Schedule(o, m, t - 2)), Schedule(o, m, t - 7)), o.f3(Schedule(o, m, t - 15))),
            Schedule(o, m, t - 16))
  }

  function T1<W>(o: Ops<W>, e: W, f: W, g: W, h: W, k: W, w: W): W {
    o.add(o.add(o.add(o.add(h, o.f2(e)), o.ch(e, f, g)), k), w)
  }

  function T2<W>(o: Ops<W>, a: W, b: W, c: W): W {
    o.add(o.f1(a), o.maj(a, b, c))
  }

  function Round<W>(o: Ops<W>, s: Work<W>, k: W, w: W): Work<W> {
    var t1 := T1(o, s.e, s.f, s.g, s.h, k, w);
    var t2 := T2(o, s.a, s.b, s.c);
    Work(o.add(t1, t2), s.a, s.b, s.c, o.add(s.d, t1), s.e, s.f, s.g)
  }

  function Rounds<W>(o: Ops<W>, m: seq<W>, s: Work<W>, n: nat): Work<W>
    requires |m| == 16 && n <= |o.k|
  {
    if n == 0 then s else Round(o, Rounds(o, m, s, n - 1), o.k[n - 1], Schedule(o, m, n - 1))
  }

  function AsWork<W>(h: seq<W>): Work<W>
    requires |h| == 8
  {
    Work(h[0], h[1], h[2], h[3], h[4], h[5], h[6], h[7])
  }

  function Plus<W>(o: Ops<W>, h: seq<W>, s: Work<W>): seq<W>
    requires |h| == 8
  {
    [o.add(h[0], s.a), o.add(h[1], s.b), o.add(h[2], s.c), o.add(h[3], s.d),
     o.add(h[4], s.e), o.add(h[5], s.f), o.add(h[6], s.g), o.add(h[7], s.h)]
  }

  /** The compression of the block m of 16 words into the hash h. */
  function Compressed<W>(o: Ops<W>, h: seq<W>, m: seq<W>): seq<W>
    requires |h| == 8 && |m| == 16
  {
    Plus(o, h, Rounds(o, m, AsWork(h), |o.k|))
  }

  /** SHA256_SCR: the words of the schedule. */
  method MakeSchedule<W>(o: Ops<W>, m: seq<W>) returns (w: array<W>)
    requires |m| == 16 && |o.k| >= 16
    ensures fresh(w) && w.Length == |o.k| && forall t :: 0 <= t < w.Length ==> w[t] == Schedule(o, m, t)
  {
    w := new W[|o.k|](i => m[0]);
    var j := 0;
    while j < 16
      invariant j <= 16 && forall t :: 0 <= t < j ==> w[t] == Schedule(o, m, t)
    {
      w[j] := m[j];
      j := j + 1;
    }
    while j < |o.k|
      invariant 16 <= j <= |o.k| && forall t :: 0 <= t < j ==> w[t] == Schedule(o, m, t)
    {
      w[j] := o.add(o.add(o.add(o.f4(w[j - 2]), w[j - 7]), o.f3(w[j - 15])), w[j - 16]);
      j := j + 1;
    }
  }

  /** The loop form: every round moves each of the work variables on by one. */
  method TransfLoop<W>(o: Ops<W>, h: array<W>, m: seq<W>)
    requires h.Length == 8 && |m| == 16 && |o.k| >= 16
    modifies h
    ensures h[..] == Compressed(o, old(h[..]), m)
  {
    hide Round, Schedule, AsWork, Plus;
    var w := MakeSchedule(o, m);
    ghost var h0 := h[..];
    var wv := new W[8](i requires 0 <= i < 8 reads h => h[i]);
    assert wv[..] == h0;
    var j := 0;
    while j < |o.k|
      invariant j <= |o.k| && h[..] == h0
      invariant AsWork(wv[..]) == Rounds(o, m, AsWork(h0), j)
      modifies wv
    {
      MoveOn(o, wv, o.k[j], w[j]);
      j := j + 1;
    }
    AddAll(o, h, wv);
  }

  /** One round of the loop form. */
  method MoveOn<W>(o: Ops<W>, wv: array<W>, k: W, w: W)
    requires wv.Length == 8
    modifies wv
    ensures AsWork(wv[..]) == Round(o, AsWork(old(wv[..])), k, w)
  {
    var t1 := T1(o, wv[4], wv[5], wv[6], wv[7], k, w);
    var t2 := T2(o, wv[0], wv[1], wv[2]);
    wv[7] := wv[6];
    wv[6] := wv[5];
    wv[5] := wv[4];
    wv[4] := o.add(wv[3], t1);
    wv[3] := wv[2];
    wv[2] := wv[1];
    wv[1] := wv[0];
    wv[0] := o.add(t1, t2);
  }

  /** The hash takes in the work variables. */
  method AddAll<W>(o: Ops<W>, h: array<W>, wv: array<W>)
    requires h.Length == 8 && wv.Length == 8 && h != wv
    modifies h
    ensures h[..] == Plus(o, old(h[..]), AsWork(wv[..]))
  {
    var j := 0;
    while j < 8
      invariant j <= 8
      invariant forall i :: 0 <= i < 8 ==> h[i] == if i < j then o.add(old(h[i]), wv[i]) else old(h[i])
    {
      h[j] := o.add(h[j], wv[j]);
      j := j + 1;
    }
  }

  /** Where variable number i is kept after r renamings. */
  function Index(i: nat, r: nat): nat
    requires i < 8 && r < 8
    ensures Index(i, r) < 8
  {
    if i < r then i + 8 - r else i - r
  }

  function NextTurn(r: nat): nat {
    if r == 7 then 0 else r + 1
  }

  /** The work variables after r renamings. */
  ghost function Turned<W>(wv: seq<W>, r: nat): Work<W>
    requires |wv| == 8 && r < 8
  {
    Work(wv[Index(0, r)], wv[Index(1, r)], wv[Index(2, r)], wv[Index(3, r)],
         wv[Index(4, r)], wv[Index(5, r)], wv[Index(6, r)], wv[Index(7, r)])
  }

  /** What a round does to the renamed variables: two of them change. */
  lemma TurnedOn<W>(wv: seq<W>, r: nat, x: W, y: W)
    requires |wv| == 8 && r < 8
    ensures var s := Turned(wv, r);
      Turned(wv[Index(3, r) := x][Index(7, r) := y], NextTurn(r)) == Work(y, s.a, s.b, s.c, x, s.e, s.f, s.g)
  {
    hide Index;
    Renamed(r);
    Apart(r);
  }

  lemma Renamed(r: nat)
    requires r < 8
    ensures var n := NextTurn(r);
      && Index(0, n) == Index(7, r) && Index(1, n) == Index(0, r) && Index(2, n) == Index(1, r)
      && Index(3, n) == Index(2, r) && Index(4, n) == Index(3, r) && Index(5, n) == Index(4, r)
      && Index(6, n) == Index(5, r) && Index(7, n) == Index(6, r)
  {
  }

  lemma Apart(r: nat)
    requires r < 8
    ensures forall i, j :: 0 <= i < j < 8 ==> Index(i, r) != Index(j, r)
  {
  }

  /** SHA256_EXP(a, ..., h, j): round j, which leaves the variables in place and renames them. */
  method Exp<W>(o: Ops<W>, wv: array<W>, a: nat, b: nat, c: nat, d: nat, e: nat, f: nat, g: nat, h: nat, j: nat, w: W,
                ghost r: nat, ghost m: seq<W>, ghost s: Work<W>)
    requires wv.Length == 8 && r < 8 && j < |o.k| && |m| == 16 && w == Schedule(o, m, j)
    requires a == Index(0, r) && b == Index(1, r) && c == Index(2, r) && d == Index(3, r)
    requires e == Index(4, r) && f == Index(5, r) && g == Index(6, r) && h == Index(7, r)
    requires Turned(wv[..], r) == Rounds(o, m, s, j)
    modifies wv
    ensures Turned(wv[..], NextTurn(r)) == Rounds(o, m, s, j + 1)
  {
    hide Schedule, T1, T2;
    ghost var v := wv[..];
    var t1 := T1(o, wv[e], wv[f], wv[g], wv[h], o.k[j], w);
    var t2 := T2(o, wv[a], wv[b], wv[c]);
    TurnedOn(v, r, o.add(wv[d], t1), o.add(t1, t2));
    NextRound(o, m, s, j);
    wv[d] := o.add(wv[d], t1);
    wv[h] := o.add(t1, t2);
    assert wv[..] == v[d := o.add(v[d], t1)][h := o.add(t1, t2)];
  }

  lemma NextRound<W>(o: Ops<W>, m: seq<W>, s: Work<W>, j: nat)
    requires |m| == 16 && j < |o.k|
    ensures Rounds(o, m, s, j + 1) == Round(o, Rounds(o, m, s, j), o.k[j], Schedule(o, m, j))
  {
  }

  method FirstFour<W>(o: Ops<W>, wv: array<W>, w0: W, w1: W, w2: W, w3: W, j: nat, ghost m: seq<W>, ghost s: Work<W>)
    requires wv.Length == 8 && j + 4 <= |o.k| && |m| == 16
    requires w0 == Schedule(o, m, j) && w1 == Schedule(o, m, j + 1) && w2 == Schedule(o, m, j + 2) && w3 == Schedule(o, m, j + 3)
    requires Turned(wv[..], 0) == Rounds(o, m, s, j)
    modifies wv
    ensures Turned(wv[..], 4) == Rounds(o, m, s, j + 4)
  {
    hide Round, Rounds, Schedule, Turned, T1, T2, AsWork;
    Exp(o, wv, 0, 1, 2, 3, 4, 5, 6, 7, j, w0, 0, m, s);
    Exp(o, wv, 7, 0, 1, 2, 3, 4, 5, 6, j + 1, w1, 1, m, s);
    Exp(o, wv, 6, 7, 0, 1, 2, 3, 4, 5, j + 2, w2, 2, m, s);
    Exp(o, wv, 5, 6, 7, 0, 1, 2, 3, 4, j + 3, w3, 3, m, s);
  }

  method LastFour<W>(o: Ops<W>, wv: array<W>, w0: W, w1: W, w2: W, w3: W, j: nat, ghost m: seq<W>, ghost s: Work<W>)
    requires wv.Length == 8 && j + 4 <= |o.k| && |m| == 16
    requires w0 == Schedule(o, m, j) && w1 == Schedule(o, m, j + 1) && w2 == Schedule(o, m, j + 2) && w3 == Schedule(o, m, j + 3)
    requires Turned(wv[..], 4) == Rounds(o, m, s, j)
    modifies wv
    ensures Turned(wv[..], 0) == Rounds(o, m, s, j + 4)
  {
    hide Round, Rounds, Schedule, Turned, T1, T2, AsWork;
    Exp(o, wv, 4, 5, 6, 7, 0, 1, 2, 3, j, w0, 4, m, s);
    Exp(o, wv, 3, 4, 5, 6, 7, 0, 1, 2, j + 1, w1, 5, m, s);
    Exp(o, wv, 2, 3, 4, 5, 6, 7, 0, 1, j + 2, w2, 6, m, s);
    Exp(o, wv, 1, 2, 3, 4, 5, 6, 7, 0, j + 3, w3, 7, m, s);
  }

  /** The loop of the unrolled form: eight rounds at a time. */
  method UnrolledRounds<W>(o: Ops<W>, wv: array<W>, w: array<W>, ghost m: seq<W>, ghost s: Work<W>)
    requires wv.Length == 8 && w.Length == |o.k| && w != wv && |o.k| % 8 == 0 && |m| == 16
    requires (forall t :: 0 <= t < w.Length ==> w[t] == Schedule(o, m, t)) && Turned(wv[..], 0) == s
    modifies wv
    ensures Turned(wv[..], 0) == Rounds(o, m, s, |o.k|)
  {
    hide *;
    NoRound(o, m, s);
    var j := 0;
    while j < |o.k|
      invariant j <= |o.k| && j % 8 == 0 && Turned(wv[..], 0) == Rounds(o, m, s, j)
    {
      EightMore(j, |o.k|);
      FirstFour(o, wv, w[j], w[j + 1], w[j + 2], w[j + 3], j, m, s);
      LastFour(o, wv, w[j + 4], w[j + 5], w[j + 6], w[j + 7], j + 4, m, s);
      j := j + 8;
    }
  }

  /** The unrolled form comes to the same as the loop. */
  method TransfUnrolled<W>(o: Ops<W>, h: array<W>, m: seq<W>)
    requires h.Length == 8 && |m| == 16 && |o.k| >= 16 && |o.k| % 8 == 0
    modifies h
    ensures h[..] == Compressed(o, old(h[..]), m)
  {
    hide *;
    var w := MakeSchedule(o, m);
    ghost var h0 := h[..];
    var wv := new W[8](i requires 0 <= i < 8 reads h => h[i]);
    assert wv[..] == h0;
    TurnedNone(h0);
    UnrolledRounds(o, wv, w, m, AsWork(h0));
    TurnedNone(wv[..]);
    AllRounds(o, h0, m);
    AddAll(o, h, wv);
  }

  lemma EightMore(j: nat, n: nat)
    requires j % 8 == 0 && n % 8 == 0 && j < n
    ensures j + 8 <= n && (j + 8) % 8 == 0
  {
  }

  lemma AllRounds<W>(o: Ops<W>, h: seq<W>, m: seq<W>)
    requires |h| == 8 && |m| == 16
    ensures Compressed(o, h, m) == Plus(o, h, Rounds(o, m, AsWork(h), |o.k|))
  {
    hide Rounds, Plus, AsWork;
  }

  lemma NoRound<W>(o: Ops<W>, m: seq<W>, s: Work<W>)
    requires |m| == 16
    ensures Rounds(o, m, s, 0) == s
  {
  }

  lemma TurnedNone<W>(wv: seq<W>)
    requires |wv| == 8
    ensures Turned(wv, 0) == AsWork(wv)
  {
  }
}
