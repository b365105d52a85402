/** The dictionary of the LZMA decoder: a ring of bytes that output is written to and copied from (lzmadec.c). */
module LzmaDictionary {

  import opened Lz77

  /**
   * dic and dicPos of the decoder. produced is everything written so far; the caller may start over at the beginning
   * of dic when its end is reached.
   */
  class Dictionary {
    const dic: array<Byte>
    var dicPos: nat
    ghost var produced: seq<Byte>

    constructor (dic: array<Byte>)
      ensures Valid() && this.dic == dic && dicPos == 0 && produced == []
    {
      this.dic := dic;
      dicPos, produced := 0, [];
    }

    /** Looking back from dicPos finds what was produced. */
    ghost predicate Valid()
      reads this, dic
    {
      && dicPos <= dic.Length && dicPos <= |produced|
      && forall d :: 1 <= d <= |produced| && d <= dic.Length ==>
        dic[Back(dicPos, d, dic.Length)] == produced[|produced| - d]
    }

    /** dic[(dicPos - d) + ((dicPos < d) ? dicBufSize : 0)]. */
    method ByteBack(d: nat) returns (x: Byte)
      requires Valid() && 1 <= d <= |produced| && d <= dic.Length
      ensures x == produced[|produced| - d]
    {
      x := dic[Back(dicPos, d, dic.Length)];
    }

    /** dic[dicPos++] = x. */
    method Put(x: Byte)
      requires Valid() && dicPos < dic.Length
      modifies `dicPos, `produced, dic
      ensures Valid() && produced == old(produced) + [x] && dicPos == old(dicPos) + 1
    {
      ghost var w, before := dic[..], produced;
      dic[dicPos] := x;
      assert dic[..] == w[dicPos := x];
      dicPos := dicPos + 1;
      produced := produced + [x];
      forall d | 1 <= d <= |produced| && d <= dic.Length
        ensures dic[Back(dicPos, d, dic.Length)] == produced[|produced| - d]
      {
        if d > 1 {
          assert w[Back(dicPos - 1, d - 1, dic.Length)] == before[|before| - (d - 1)];
        }
      }
    }

    /** Copies a byte from rep0 back. */
    method CopyByte(rep0: nat)
      requires Valid() && 1 <= rep0 <= |produced| && rep0 <= dic.Length && dicPos < dic.Length
      modifies `dicPos, `produced, dic
      ensures Valid() && dicPos == old(dicPos) + 1
      ensures produced == old(produced) + [old(produced)[|old(produced)| - rep0]]
    {
      var x := ByteBack(rep0);
      Put(x);
    }

    /** Copies len bytes, looking back from dicPos for each. */
    method CopyBytes(rep0: nat, len: nat)
      requires Valid() && 1 <= rep0 <= |produced| && rep0 <= dic.Length && dicPos + len <= dic.Length
      modifies `dicPos, `produced, dic
      ensures Valid() && dicPos == old(dicPos) + len
      ensures produced == Copied(old(produced), rep0, len)
    {
      hide Valid, Copied, Back;
      CopiedNone(produced, rep0);
      var i := 0;
      while i < len
        invariant i <= len && Valid() && produced == Copied(old(produced), rep0, i) && dicPos == old(dicPos) + i
      {
        CopiedNext(old(produced), rep0, i);
        CopyByte(rep0);
        i := i + 1;
      }
    }

    /**
     * Copies curLen bytes: with two pointers if the source does not reach the end of the dictionary, else with a
     * source index that wraps there.
     */
    method CopyMatch(rep0: nat, curLen: nat)
      requires Valid() && 1 <= rep0 <= |produced| && rep0 <= dic.Length && dicPos + curLen <= dic.Length
      modifies `dicPos, `produced, dic
      ensures Valid() && dicPos == old(dicPos) + curLen
      ensures produced == Copied(old(produced), rep0, curLen)
    {
      hide Valid, Copied, Back;
      ghost var out := produced;
      CopiedNone(out, rep0);
      var i := 0;
      var pos: int := Back(dicPos, rep0, dic.Length);
      if curLen > 0 {
        BackNext(dicPos, rep0, dic.Length);
      }
      if pos + curLen <= dic.Length {
        var src := pos - dicPos;
        while i < curLen
          invariant i <= curLen && Valid() && produced == Copied(out, rep0, i) && dicPos == old(dicPos) + i
          invariant i < curLen ==> dicPos + src == Back(dicPos, rep0, dic.Length)
        {
          CopiedNext(out, rep0, i);
          CopyFrom(dicPos + src, rep0);
          i := i + 1;
        }
      } else {
        while i < curLen
          invariant i <= curLen && Valid() && produced == Copied(out, rep0, i) && dicPos == old(dicPos) + i
          invariant i < curLen ==> pos == Back(dicPos, rep0, dic.Length)
        {
          CopiedNext(out, rep0, i);
          CopyFrom(pos, rep0);
          pos := pos + 1;
          if pos == dic.Length {
            pos := 0;
          }
          i := i + 1;
        }
      }
    }

    /** Copies a byte from index pos, which is rep0 back. */
    method CopyFrom(pos: int, rep0: nat)
      requires Valid() && 1 <= rep0 <= |produced| && rep0 <= dic.Length && dicPos < dic.Length
      requires pos == Back(dicPos, rep0, dic.Length)
      modifies `dicPos, `produced, dic
      ensures Valid() && dicPos == old(dicPos) + 1
      ensures produced == old(produced) + [old(produced)[|old(produced)| - rep0]]
      ensures dicPos < dic.Length ==> Back(dicPos, rep0, dic.Length) == if pos + 1 == dic.Length then 0 else pos + 1
    {
      BackNext(dicPos, rep0, dic.Length);
      var x := dic[pos];
      Put(x);
    }

    /** What the caller does when the dictionary is full. */
    method Rewind()
      requires Valid() && dicPos == dic.Length
      modifies `dicPos
      ensures Valid() && dicPos == 0
    {
      BackToStart(dic.Length);
      dicPos := 0;
    }
  }
}
