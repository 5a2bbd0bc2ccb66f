/**
 Guest memory as one byte array, and the page-chunked copies in and out of it.

 A chunk that starts at or before the end of guest memory and runs past it is
 outside what C defines; the model transfers only the bytes that exist. Every
 main result is about accesses that stay inside guest memory.
 */
module GuestMemory {
  import opened Words

  const PAGE: nat := 4096

  /** Overwrite m with bs from address a on; what falls past the end is dropped. */
  function FlatWrite(m: seq<byte>, a: nat, bs: seq<byte>): (r: seq<byte>)
    ensures |r| == |m|
  {
    seq(|m|, i requires 0 <= i < |m| => if a <= i < a + |bs| then bs[i - a] else m[i])
  }

  /** The bytes of m from address a on, at most n of them. */
  function FlatRead(m: seq<byte>, a: nat, n: nat): (r: seq<byte>)
    ensures a + n <= |m| ==> |r| == n
  {
    if a <= |m| then m[a..Min(a + n, |m|)] else []
  }

  /** Where the last page-bounded chunk of a copy starts. */
  function LastChunk(a: nat, n: nat): (r: nat)
    requires n > 0
    ensures a <= r < a + n
  {
    Max(a, (a + n - 1) / PAGE * PAGE)
  }

  /** Every chunk of the copy starts at an address the translation accepts. */
  predicate Translates(size: nat, a: nat, n: nat) {
    n == 0 || LastChunk(a, n) <= size
  }

  /** A copy fails exactly when its own address, or a 4096-byte page it enters, lies above the size of memory. */
  lemma TranslatesIff(size: nat, a: nat, n: nat)
    ensures Translates(size, a, n) <==>
            n == 0 || (a <= size && forall k :: a < 4096 * k < a + n ==> 4096 * k <= size)
  {
    if n > 0 {
      var k := (a + n - 1) / PAGE;
      assert PAGE * k <= a + n - 1 < PAGE * k + PAGE;
      forall j | a < 4096 * j < a + n
        ensures j <= k
      {
      }
      if a < PAGE * k {
        assert a < 4096 * k < a + n;
      }
    }
  }

  lemma {:induction false} WriteThenRead(m: seq<byte>, a: nat, bs: seq<byte>)
    requires a + |bs| <= |m|
    ensures FlatRead(FlatWrite(m, a, bs), a, |bs|) == bs
    ensures forall b: nat, n: nat :: (b + n <= a || a + |bs| <= b) && b + n <= |m|
                                     ==> FlatRead(FlatWrite(m, a, bs), b, n) == FlatRead(m, b, n)
  {
    assert FlatRead(FlatWrite(m, a, bs), a, |bs|) == bs;
    forall b: nat, n: nat | (b + n <= a || a + |bs| <= b) && b + n <= |m|
      ensures FlatRead(FlatWrite(m, a, bs), b, n) == FlatRead(m, b, n)
    {
    }
  }

  /** Adjacent writes are one write. */
  lemma FlatWriteJoin(m: seq<byte>, a: nat, x: seq<byte>, y: seq<byte>)
    ensures FlatWrite(FlatWrite(m, a, x), a + |x|, y) == FlatWrite(m, a, x + y)
  {
    assert FlatWrite(FlatWrite(m, a, x), a + |x|, y) == FlatWrite(m, a, x + y);
  }

  /** A chunk that starts at a and stays inside its page is the last chunk of the copy that ends with it. */
  lemma ChunkStart(addr: nat, a: nat, l: nat)
    requires a == addr || (addr < a && a % PAGE == 0)
    requires 0 < l <= PAGE - a % PAGE
    ensures LastChunk(addr, a + l - addr) == a
  {
    var b := a + l - 1;
    assert b / PAGE == a / PAGE;
    assert a / PAGE * PAGE <= a;
  }

  /** Later chunks start no earlier. */
  lemma LaterChunks(addr: nat, a: nat, n: nat)
    requires a == addr || (addr < a && a % PAGE == 0)
    requires a < addr + n
    ensures LastChunk(addr, n) >= a
  {
    if a != addr {
      assert a == a / PAGE * PAGE;
      assert (addr + n - 1) / PAGE >= a / PAGE;
    }
  }

  /** The C memcpy of one chunk. */
  method CopyBytes(dst: array<byte>, to: nat, src: array<byte>, from: nat, n: nat)
    requires src != dst
    modifies dst
    ensures dst[..] == FlatWrite(old(dst[..]), to, FlatRead(src[..], from, n))
  {
    forall i | 0 <= i < n && from + i < src.Length && to + i < dst.Length {
      dst[to + i] := src[from + i];
    }
  }

  lemma FlatReadJoin(m: seq<byte>, a: nat, x: nat, y: nat)
    ensures FlatRead(m, a, x + y) == FlatRead(m, a, x) + FlatRead(m, a + x, y)
  {
  }

  lemma ReadChunk(m: seq<byte>, b: seq<byte>, to: nat, a: nat, x: nat, y: nat)
    requires a + x <= |m|
    ensures FlatWrite(FlatWrite(b, to, FlatRead(m, a, x)), to + x, FlatRead(m, a + x, y))
         == FlatWrite(b, to, FlatRead(m, a, x + y))
  {
    FlatReadJoin(m, a, x, y);
    FlatWriteJoin(b, to, FlatRead(m, a, x), FlatRead(m, a + x, y));
  }

  lemma WriteChunk(m: seq<byte>, a: nat, b: seq<byte>, from: nat, p: nat, l: nat)
    requires from <= p && p + l <= |b|
    ensures FlatWrite(FlatWrite(m, a, b[from..p]), a + (p - from), FlatRead(b, p, l)) == FlatWrite(m, a, b[from..p + l])
  {
    assert b[from..p + l] == b[from..p] + FlatRead(b, p, l);
    FlatWriteJoin(m, a, b[from..p], FlatRead(b, p, l));
  }

  lemma PastTheEnd(m: seq<byte>, a: nat, x: nat, y: nat, bs: seq<byte>)
    requires x <= y && x <= |bs| && a + x > |m|
    ensures FlatRead(m, a, x) == FlatRead(m, a, y)
    ensures FlatWrite(m, a, bs[..x]) == FlatWrite(m, a, bs)
  {
  }

  lemma NoBytes(m: seq<byte>, b: seq<byte>, a: nat, to: nat)
    ensures FlatWrite(b, to, FlatRead(m, a, 0)) == b
    ensures FlatWrite(b, to, []) == b
  {
  }

  method MemcpyFromGuest(mem: array<byte>, buf: array<byte>, to: nat, addr: nat, count: nat) returns (ret: int)
    requires buf != mem
    requires to + count <= buf.Length
    modifies buf
    ensures ret == 0 || ret == -1
    ensures ret == 0 <==> Translates(mem.Length, addr, count)
    ensures buf[..] == FlatWrite(old(buf[..]), to, FlatRead(mem[..], addr, count))
  {
    hide FlatWrite, FlatRead, LastChunk;
    ghost var m, b := mem[..], buf[..];
    var a, p, c := addr, to, count;
    NoBytes(m, b, addr, to);
    while c > 0
      invariant 0 <= c <= count && a == addr + (count - c) && p == to + (count - c)
      invariant Translates(mem.Length, addr, count - c)
      invariant a == addr || a % PAGE == 0 || c == 0
      invariant buf[..] == FlatWrite(b, to, FlatRead(m, addr, count - c))
      decreases c
    {
      var l := Min(c, PAGE - a % PAGE);
      if a > mem.Length {
        LaterChunks(addr, a, count);
        PastTheEnd(m, addr, count - c, count, b[to..to + count]);
        return -1;
      }
      ChunkStart(addr, a, l);
      ReadChunk(m, b, to, addr, count - c, l);
      CopyBytes(buf, p, mem, a, l);
      a, p, c := a + l, p + l, c - l;
    }
    ret := 0;
  }

  lemma SlicePrefix(b: seq<byte>, from: nat, n: nat, k: nat)
    requires k <= n && from + n <= |b|
    ensures b[from..from + n][..k] == b[from..from + k]
  {
  }

  method MemcpyToGuest(mem: array<byte>, addr: nat, buf: array<byte>, from: nat, count: nat) returns (ret: int)
    requires buf != mem
    requires from + count <= buf.Length
    modifies mem
    ensures ret == 0 || ret == -1
    ensures ret == 0 <==> Translates(mem.Length, addr, count)
    ensures mem[..] == FlatWrite(old(mem[..]), addr, buf[from..from + count])
  {
    hide FlatWrite, FlatRead, LastChunk;
    ghost var m, b := mem[..], buf[..];
    var a, p, c := addr, from, count;
    NoBytes(b, m, from, addr);
    assert b[from..p] == [];
    while c > 0
      invariant 0 <= c <= count && a == addr + (count - c) && p == from + (count - c)
      invariant Translates(mem.Length, addr, count - c)
      invariant a == addr || a % PAGE == 0 || c == 0
      invariant mem[..] == FlatWrite(m, addr, b[from..p])
      decreases c
    {
      var l := Min(c, PAGE - a % PAGE);
      if a > mem.Length {
        LaterChunks(addr, a, count);
        SlicePrefix(b, from, count, count - c);
        PastTheEnd(m, addr, count - c, count, b[from..from + count]);
        return -1;
      }
      ChunkStart(addr, a, l);
      WriteChunk(m, addr, b, from, p, l);
      CopyBytes(mem, a, buf, p, l);
      a, p, c := a + l, p + l, c - l;
    }
    ret := 0;
  }

  method Read16(mem: array<byte>, addr: nat) returns (v: nat)
    ensures v < U16
    ensures addr % 2 == 0 && addr + 2 <= mem.Length ==> v == Get16(mem[..], addr)
    ensures addr % 2 == 1 || addr > mem.Length ==> v == 0
  {
    if addr % 2 == 1 || addr + 2 > mem.Length {
      return 0;
    }
    v := mem[addr] as int + 0x100 * (mem[addr + 1] as int);
  }

  /** An aligned store; unaligned stores and stores past the end are dropped. */
  method Store(mem: array<byte>, addr: nat, bytes: seq<byte>)
    modifies mem
    ensures mem[..] == if |bytes| > 0 && addr % |bytes| == 0 then FlatWrite(old(mem[..]), addr, bytes) else old(mem[..])
  {
    if |bytes| == 0 || addr % |bytes| != 0 {
      return;
    }
    forall i | 0 <= i < |bytes| && addr + i < mem.Length {
      mem[addr + i] := bytes[i];
    }
  }
}
