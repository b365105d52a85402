/** The sliding window of inflate: a ring buffer of pending output that keeps its history (zlib.c). */
module Window {

  import opened Adler32
  import opened Arith
  import opened Lz77
  import opened ReturnCodes

  /** The return code once n bytes have been delivered. */
  function AfterDelivery(n: nat, r: Code): Code {
    if n > 0 && r == Z_BUF_ERROR then Z_OK else r
  }

  /** The bytes of ring w between two positions, around the end if need be. */
  ghost function Between(w: seq<Byte>, read: nat, write: nat): seq<Byte>
    requires read <= |w| && write <= |w|
  {
    if read <= write then w[read..write] else w[read..] + w[..write]
  }

  /** Taking n bytes that lie before the end of the ring. */
  lemma TakeBetween(w: seq<Byte>, read: nat, write: nat, n: nat)
    requires read <= |w| && write <= |w| && read + n <= if read <= write then write else |w|
    ensures n <= |Between(w, read, write)| && Between(w, read, write)[..n] == w[read..read + n]
    ensures Between(w, read + n, write) == Between(w, read, write)[n..]
  {
  }

  lemma LengthBetween(w: seq<Byte>, read: nat, write: nat)
    requires read <= |w| && write <= |w|
    ensures |Between(w, read, write)| == if read <= write then write - read else |w| - read + write
  {
  }

  /** At the end of the ring the rest is what lies at its beginning. */
  lemma WrapBetween(w: seq<Byte>, write: nat)
    requires write <= |w|
    ensures Between(w, |w|, write) == if write == |w| then [] else w[..write]
    ensures Between(w, 0, if write == |w| then 0 else write) == Between(w, |w|, write)
  {
  }

  /**
   * The window fields of the block state and the output fields of the stream. buf is the window, from position
   * read to write it holds bytes that are still to be delivered; out is what has been delivered, room for
   * availOut more, and check its running checksum. produced is every byte put into the window so far.
   */
  class RingWindow {
    const buf: array<Byte>
    var read: nat
    var write: nat
    var out: seq<Byte>
    var availOut: nat
    var check: Word
    ghost var produced: seq<Byte>

    /** The bytes between read and write, around the end of the window if need be. */
    ghost function Pending(): seq<Byte>
      reads `read, `write, buf
      requires read <= buf.Length && write <= buf.Length
    {
      Between(buf[..], read, write)
    }

    lemma PendingLength()
      requires read <= buf.Length && write <= buf.Length
      ensures |Pending()| == if read <= write then write - read else buf.Length - read + write
    {
      LengthBetween(buf[..], read, write);
    }

    /** The byte at distance d from the write position is the one produced d bytes ago. */
    ghost predicate History()
      reads `write, `produced, buf
      requires write <= buf.Length
    {
      forall d :: 1 <= d <= |produced| && d <= buf.Length ==>
        buf[Back(write, d, buf.Length)] == produced[|produced| - d]
    }

    ghost predicate Valid()
      reads this, buf
    {
      && read < buf.Length && write <= buf.Length
      && out + Pending() == produced
      && History()
      && check == Pack(Update(Sums(1, 0), out))
    }

    /** The running check is the checksum of what has been delivered, by section 8.2 of RFC 1950. */
    lemma CheckIs()
      requires Valid()
      ensures IsChecksum(check, 1, out)
    {
      hide Update, Between, History, IsChecksum;
      ClosedForm(1, out);
    }

    constructor (size: nat, room: nat)
      requires size > 0
      ensures Valid() && fresh(buf) && buf.Length == size
      ensures out == [] && produced == [] && availOut == room && Avail() == size
    {
      buf := new Byte[size];
      read, write := 0, 0;
      out, availOut, check, produced := [], room, 1, [];
    }

    /** WAVAIL: bytes that can be written before the end of the window or the read position. */
    function Avail(): (m: int)
      reads this
    {
      if write < read then read - write - 1 else buf.Length - write
    }

    /** The bytes that the caller has room for in all, with those that have been delivered. */
    ghost function Capacity(): nat
      reads `out, `availOut
    {
      |out| + availOut
    }

    lemma AvailBound()
      requires Valid()
      ensures Avail() <= buf.Length
    {
    }

    /** Delivers as much as there is room for of the bytes from the read position up to limit. */
    method Deliver(limit: nat, r: Code) returns (n: nat, r': Code)
      requires read <= limit <= buf.Length && write <= buf.Length
      requires limit == if read <= write then write else buf.Length
      requires check == Pack(Update(Sums(1, 0), out))
      modifies this`read, this`out, this`availOut, this`check
      ensures n == Min(old(availOut), limit - old(read))
      ensures read == old(read) + n && availOut == old(availOut) - n
      ensures out + Pending() == old(out + Pending()) && |out| == |old(out)| + n && old(out) <= out
      ensures check == Pack(Update(Sums(1, 0), out))
      ensures r' == AfterDelivery(n, r)
    {
      hide Update, Pack, Unpack, Between;
      n := limit - read;
      if n > availOut { n := availOut; }
      r' := if n > 0 && r == Z_BUF_ERROR then Z_OK else r;
      availOut := availOut - n;
      var chunk := buf[read..read + n];
      CheckMore(out, chunk);
      TakeBetween(buf[..], read, write, n);
      Rejoin(out, Between(buf[..], read, write), n);
      assert chunk == buf[..][read..read + n];
      check := Adler32.Adler32(check, chunk);
      out, read := out + chunk, read + n;
      assert buf[..] == old(buf[..]);
    }

    /** Once the end of the window is delivered, goes on with what lies at its beginning. */
    method DeliverFromStart(r: Code) returns (m: nat, r': Code)
      requires 0 < buf.Length == read && write <= buf.Length && History()
      requires check == Pack(Update(Sums(1, 0), out))
      modifies this`read, this`write, this`out, this`availOut, this`check
      ensures read <= write < buf.Length && write == if old(write) == buf.Length then 0 else old(write)
      ensures m == Min(old(availOut), |old(Pending())|) && availOut == old(availOut) - m
      ensures out + Pending() == old(out + Pending()) && |out| == |old(out)| + m && old(out) <= out && History()
      ensures check == Pack(Update(Sums(1, 0), out))
      ensures r' == AfterDelivery(m, r)
    {
      hide Update, Pack, Unpack, Back, Between, History, Pending;
      ResetWrite();
      PendingLength();
      m, r' := Deliver(write, r);
    }

    /**
     * inflate_flush: delivers the first n of the pending bytes, as many as there is room for. Room is left only when
     * everything pending has been delivered.
     */
    method Flush(r: Code) returns (r': Code, n: nat)
      requires Valid()
      modifies this`read, this`write, this`out, this`availOut, this`check
      ensures Valid()
      ensures n == Min(old(availOut), |old(Pending())|)
      ensures old(out) <= out && |out| == |old(out)| + n && availOut == old(availOut) - n
      ensures r' == AfterDelivery(n, r)
      ensures write == old(write) || (write == 0 && old(write) == buf.Length)
      ensures availOut > 0 ==> read == write < buf.Length
      ensures read == write <==> out == produced
    {
      hide Update, Pack, Unpack, Back, Between, History, Pending;
      PendingLength();
      n, r' := Deliver(if read <= write then write else buf.Length, r);
      if read == buf.Length {
        var m;
        m, r' := DeliverFromStart(r');
        n := n + m;
      }
      PendingLength();
    }

    /** WRAP: goes on at the start of the window when its end is reached and its start has been delivered. */
    method Wrap()
      requires Valid()
      modifies this`write
      ensures Valid() && Pending() == old(Pending())
      ensures write == if old(write) == buf.Length && read != 0 then 0 else old(write)
    {
      hide Update, Pack, Back, Between;
      if write == buf.Length && read != 0 {
        WrapBetween2(buf[..], read);
        BackToStart(buf.Length);
        write := 0;
      }
      assert buf[..] == old(buf[..]);
    }

    /** NEEDOUT: makes room for at least one byte, or leaves (ok is false), which only happens without output space. */
    method NeedOut(r: Code) returns (r': Code, ok: bool)
      requires Valid()
      modifies this`read, this`write, this`out, this`availOut, this`check
      ensures Valid() && old(out) <= out
      ensures ok ==> Avail() >= 1 && write < buf.Length && r' == Z_OK
      ensures !ok ==> availOut == 0
      ensures r' == r || r' == Z_OK
      ensures r' == Z_BUF_ERROR ==> out == old(out)
      ensures Capacity() == old(Capacity())
      ensures write == old(write) || (write == 0 && old(write) == buf.Length)
    {
      hide Update, Pack, Back, Between, History;
      r', ok := r, true;
      if Avail() == 0 {
        Wrap();
        if Avail() == 0 {
          var n;
          r', n := Flush(r');
          Wrap();
          if Avail() == 0 {
            return r', false;
          }
        }
      }
      r' := Z_OK;
    }

    /** OUTBYTE: puts a byte into the window. */
    method OutByte(x: Byte)
      requires Valid() && Avail() >= 1
      modifies this`write, this`produced, buf
      ensures Valid() && produced == old(produced) + [x]
      ensures write == old(write) + 1 && Avail() == old(Avail()) - 1
    {
      hide Update, Pack, Between;
      PutBetween(buf[..], read, write, x);
      ghost var w := buf[..];
      buf[write] := x;
      assert buf[..] == w[write := x];
      write := write + 1;
      ghost var before := produced;
      produced := produced + [x];
      forall d | 1 <= d <= |produced| && d <= buf.Length
        ensures buf[Back(write, d, buf.Length)] == produced[|produced| - d]
      {
        if d > 1 {
          assert w[Back(write - 1, d - 1, buf.Length)] == before[|before| - (d - 1)];
        }
      }
    }

    /** Wraps the pointers when everything up to the end of the window has been delivered. */
    method ResetWrite()
      requires 0 < buf.Length == read && write <= buf.Length && History()
      modifies this`read, this`write
      ensures read == 0 && write < buf.Length && write == if old(write) == buf.Length then 0 else old(write)
      ensures History() && Pending() == old(Pending())
    {
      hide Back, Between;
      WrapBetween(buf[..], write);
      read := 0;
      if write == buf.Length {
        BackToStart(buf.Length);
        write := 0;
      }
      assert buf[..] == old(buf[..]);
    }
  }

  lemma WrapBetween2(w: seq<Byte>, read: nat)
    requires 0 < read <= |w|
    ensures Between(w, read, 0) == Between(w, read, |w|)
  {
  }

  lemma PutBetween(w: seq<Byte>, read: nat, write: nat, x: Byte)
    requires read <= |w| && write < |w| && write + 1 != read
    ensures Between(w[write := x], read, write + 1) == Between(w, read, write) + [x]
  {
  }

  lemma Rejoin(s: seq<Byte>, t: seq<Byte>, n: nat)
    requires n <= |t|
    ensures (s + t[..n]) + t[n..] == s + t
  {
  }

  /** Checksumming what is delivered next. */
  lemma CheckMore(out: seq<Byte>, more: seq<Byte>)
    ensures var a := Update(Sums(1, 0), out);
      Unpack(Pack(a)) == a && a.s1 < 65536 && a.s2 < 65536 && Update(a, more) == Update(Sums(1, 0), out + more)
  {
    hide Update, Pack, Unpack;
    UpdateConcat(Sums(1, 0), out, more);
    UpdateBound(Sums(1, 0), out);
    Unpacked(Update(Sums(1, 0), out));
  }
}
