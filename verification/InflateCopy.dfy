/** The two ways in which inflate copies a string within its window (zlib.c). */
module InflateCopy {

  import opened Adler32
  import opened Lz77
  import opened Window

  /** Copies n bytes from position r on, before the end of the window is reached there. */
  method CopyRun(win: RingWindow, r: nat, n: nat, d: nat, ghost out: seq<Byte>, ghost done: nat)
    requires win.Valid() && n <= win.Avail() && r + n <= win.buf.Length
    requires 1 <= d <= |out| && d <= win.buf.Length && win.produced == Copied(out, d, done)
    requires win.write < win.buf.Length ==> r == Back(win.write, d, win.buf.Length)
    modifies win`write, win`produced, win.buf
    ensures win.Valid() && win.produced == Copied(out, d, done + n)
    ensures win.write == old(win.write) + n && win.Avail() == old(win.Avail()) - n
  {
    hide Copied, Update, Pack, Between, RingWindow.History;
    var i := 0;
    while i < n
      invariant i <= n && win.Valid() && win.produced == Copied(out, d, done + i)
      invariant win.write == old(win.write) + i && win.Avail() == old(win.Avail()) - i
      modifies win`write, win`produced, win.buf
    {
      CopiedNext(out, d, done + i);
      CopyByte(win, r + i, d);
      i := i + 1;
    }
  }

  /** *q++ = *r++. */
  method CopyByte(win: RingWindow, r: nat, d: nat)
    requires win.Valid() && 1 <= win.Avail() && 1 <= d <= |win.produced| && d <= win.buf.Length
    requires r == Back(win.write, d, win.buf.Length)
    modifies win`write, win`produced, win.buf
    ensures win.Valid() && win.produced == old(win.produced) + [old(win.produced)[|old(win.produced)| - d]]
    ensures win.write == old(win.write) + 1 && win.Avail() == old(win.Avail()) - 1
  {
    win.OutByte(win.buf[r]);
  }

  /**
   * The copy of inflate_fast: straight when the source lies before the destination, else from behind the
   * destination, in two pieces if the source crosses the end of the window.
   */
  method FastCopy(win: RingWindow, len: nat, d: nat)
    requires win.Valid() && 3 <= len <= win.Avail() && 1 <= d <= |win.produced| && d <= win.buf.Length
    modifies win`write, win`produced, win.buf
    ensures win.Valid() && win.produced == Copied(old(win.produced), d, len)
    ensures win.Avail() == old(win.Avail()) - len
  {
    hide Copied, Update, Pack, Between, RingWindow.History;
    ghost var out := win.produced;
    CopiedNone(out, d);
    var c, r := len, 0;
    if win.write >= d {
      r := win.write - d;
      CopyRun(win, r, 1, d, out, 0);
      CopyRun(win, r + 1, 1, d, out, 1);
      c, r := c - 2, r + 2;
    } else {
      var e := d - win.write;
      r := win.buf.Length - e;
      if c > e {
        c := c - e;
        CopyRun(win, r, e, d, out, 0);
        r := 0;
      }
    }
    CopyRun(win, r, c, d, out, len - c);
  }
}
