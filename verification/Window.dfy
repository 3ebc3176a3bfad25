/** The decoder's circular history, which doubles as its output buffer. */
module Window {
  import opened Bits
  import opened Tokens
  import Adler

  const HISTORY_SIZE := 32768

  class History {
    const his: array<byte>
    var cp: nat
    var full: bool
    var sink: seq<byte> // what the writer callback has been given
    var adler: Adler.word32 // the checksum that zlwrite keeps of it

    /** The buffer is one lap of the output: the part not flushed yet, then the previous lap's rest. */
    ghost predicate Valid()
      reads this, his
    {
      && his.Length == HISTORY_SIZE && cp < HISTORY_SIZE
      && (full ==> |sink| >= HISTORY_SIZE && his[cp..] == sink[|sink| - HISTORY_SIZE + cp..])
      && (!full ==> sink == [])
      && adler == Adler.AdlerOf(1, sink)
    }

    /** Everything produced so far, as if the output were kept whole. */
    ghost function Output(): (s: seq<byte>)
      reads this, his
      requires Valid()
      ensures |s| == |sink| + cp
    {
      sink + his[..cp]
    }

    constructor ()
      ensures Valid() && fresh(his) && Output() == []
    {
      his := new byte[HISTORY_SIZE](_ => 0);
      cp, full, sink, adler := 0, false, [], 1;
    }

    /** The writer callback of inflatezlib. */
    method ZlWrite(buf: seq<byte>)
      requires adler == Adler.AdlerOf(1, sink)
      modifies `sink, `adler
      ensures sink == old(sink) + buf && adler == Adler.AdlerOf(1, sink)
    {
      hide Adler.AdlerOf;
      Adler.AdlerAppend(1, sink, buf);
      adler := Adler.Adler32(adler, buf);
      sink := sink + buf;
    }

    method Put(c: byte)
      requires Valid()
      modifies this, his
      ensures Valid() && Output() == old(Output()) + [c]
      ensures cp == if old(cp) + 1 == HISTORY_SIZE then 0 else old(cp) + 1
    {
      hide Adler.AdlerOf;
      ghost var n, out, tail, s := cp, his[..cp], his[cp..], sink;
      his[cp] := c;
      cp := cp + 1;
      assert his[..cp] == out + [c];
      assert his[cp..] == tail[1..];
      if cp == HISTORY_SIZE {
        ghost var lap := his[..];
        assert lap == out + [c] && s + (out + [c]) == s + out + [c];
        full := true;
        ZlWrite(his[..]);
        cp := 0;
        assert his[cp..] == lap && his[..cp] == [] && sink[|sink| - HISTORY_SIZE..] == lap && sink + [] == sink;
      } else {
        assert s + (out + [c]) == s + out + [c];
      }
    }

    /** Where the byte at a distance is kept. */
    lemma BackReference(off: nat)
      requires Valid() && 1 <= off <= MAX_OFF && off <= |Output()|
      ensures cp < off ==> full
      ensures var q := if off <= cp then cp - off else cp - off + HISTORY_SIZE;
              0 <= q < HISTORY_SIZE && his[q] == Output()[|Output()| - off]
    {
      if cp < off {
        var q := cp - off + HISTORY_SIZE;
        assert his[q] == his[cp..][q - cp];
      }
    }

    /** Where the read pointer of a copy stands, relative to the write pointer. */
    ghost predicate ReadsAt(hq: int, off: nat)
      reads this
    {
      hq == if off <= cp then cp - off else cp - off + HISTORY_SIZE
    }

    /** One byte of a copy: both pointers advance and wrap on their own. */
    method CopyByte(hq: nat, off: nat) returns (next: nat)
      requires Valid() && 1 <= off <= MAX_OFF && off <= |Output()| && ReadsAt(hq, off)
      modifies this, his
      ensures Valid() && Output() == old(Output()) + [old(Output())[|old(Output())| - off]]
      ensures ReadsAt(next, off)
    {
      BackReference(off);
      Put(his[hq]);
      next := hq + 1;
      if next >= HISTORY_SIZE {
        next := 0;
      }
    }

    /** Copy a match; a distance is rejected exactly when it exceeds what has been produced. */
    method CopyMatch(len: nat, off: nat) returns (ok: bool)
      requires Valid() && 1 <= off <= MAX_OFF
      modifies this, his
      ensures Valid()
      ensures ok <==> off <= |old(Output())|
      ensures ok ==> Output() == Copy(old(Output()), len, off)
    {
      hide Copy, Adler.AdlerOf;
      ghost var start := Output();
      var hq := cp - off;
      if hq < 0 {
        if !full {
          return false;
        }
        hq := hq + HISTORY_SIZE;
      }
      var n := len;
      while n > 0
        invariant Valid() && 1 <= off <= |start| <= |Output()|
        invariant 0 <= hq && ReadsAt(hq, off)
        invariant Copy(start, len, off) == Copy(Output(), n, off)
      {
        ghost var out := Output();
        hq := CopyByte(hq, off);
        CopyStep(out, n, off, Output());
        n := n - 1;
      }
      CopyZero(Output(), off);
      ok := true;
    }

    /** What inflate writes at the end: the part of the last lap that is in use. */
    method Flush()
      requires Valid()
      modifies `sink, `adler
      ensures sink == old(Output()) && adler == Adler.AdlerOf(1, sink)
    {
      if cp != 0 {
        ZlWrite(his[..cp]);
      }
    }
  }
}
