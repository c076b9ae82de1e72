/** The mutable hash object. */
module StreebogHash {
  import opened Wire
  import opened Endian
  import opened Streebog
  import opened StreebogProof
  import opened ModularArithmetic

  // ----- fixed-size buffers

  /** Extends the written part of a buffer. */
  method CopyAt(dst: array<byte>, at: nat, src: Bytes)
    requires at + |src| <= dst.Length
    modifies dst
    ensures dst[..at + |src|] == old(dst[..at]) + src
  {
    forall i | 0 <= i < |src| {
      dst[at + i] := src[i];
    }
  }

  /** A new zeroed block that starts with `src`. */
  method ZeroExtended(src: Bytes) returns (dst: array<byte>)
    requires |src| <= 64
    ensures fresh(dst) && dst.Length == 64 && dst[..] == src + seq(64 - |src|, _ => 0)
  {
    dst := new byte[64](_ => 0);
    forall i | 0 <= i < |src| {
      dst[i] := src[i];
    }
  }

  /** Overwrites a whole buffer. */
  method Fill(dst: array<byte>, src: Bytes)
    requires dst.Length == |src|
    modifies dst
    ensures dst[..] == src
  {
    forall i | 0 <= i < |src| {
      dst[i] := src[i];
    }
  }

  method PaddedBlock(rest: Bytes) returns (block: array<byte>)
    requires |rest| < 64
    ensures fresh(block) && block.Length == 64 && block[..] == Padded(rest)
  {
    block := ZeroExtended(rest);
    block[|rest|] := 1;
  }

  method NumberBlock(n: nat) returns (block: array<byte>)
    requires n < U64_LIMIT
    ensures fresh(block) && block.Length == 64 && block[..] == Vec512(n)
  {
    block := ZeroExtended(LittleEndian(8, n));
    ShortVec(n);
  }

  /** XORBytes on whole blocks; the destination may be either operand. */
  method XorBytes(dst: array<byte>, x: array<byte>, y: array<byte>)
    requires dst.Length == 64 && x.Length == 64 && y.Length == 64
    modifies dst
    ensures dst[..] == XorBlock(old(x[..]), old(y[..]))
  {
    ghost var a: Block, b: Block := x[..], y[..];
    forall i | 0 <= i < 64 {
      dst[i] := Xor(x[i], y[i]);
    }
    forall i | 0 <= i < 64
      ensures dst[i] == XorBlock(a, b)[i]
    {
      XorAt(a, b, 0, i);
    }
  }

  method Lps(t: Tables, dst: array<byte>, src: array<byte>)
    requires dst.Length == 64 && src.Length == 64
    modifies dst
    ensures dst[..] == t.lps(old(src[..]))
  {
    var res := t.lps(src[..]);
    Fill(dst, res);
  }

  /** add512bit: a byte-by-byte sum with a carry in the high half of a 16-bit accumulator; any buffers may coincide. */
  method Add512Bit(out: array<byte>, chk: array<byte>, data: array<byte>)
    requires out.Length == 64 && chk.Length == 64 && data.Length == 64
    modifies out
    ensures out[..] == Add512(old(chk[..]), old(data[..]))
  {
    ghost var a: Block, b: Block := chk[..], data[..];
    var ss := 0;
    for i := 0 to 64
      invariant 0 <= ss < 512 && forall j :: i <= j < 64 ==> chk[j] == a[j] && data[j] == b[j]
      invariant FromLittleEndian(out[..i]) + ss / 256 * Pow256(i) == FromLittleEndian(a[..i]) + FromLittleEndian(b[..i])
    {
      ghost var before, carry := out[..i], ss / 256;
      ss := chk[i] + data[i] + ss / 256;
      out[i] := ss % 256;
      assert out[..i + 1] == before + [out[i]];
      FromLittleEndianAppend(before, out[i]);
      Append(a, i);
      Append(b, i);
      Carry(FromLittleEndian(before), FromLittleEndian(a[..i]), FromLittleEndian(b[..i]), carry, a[i], b[i], ss,
            Pow256(i));
    }
    assert out[..64] == out[..] && a[..64] == a && b[..64] == b;
    Overflow(out[..], a, b, ss / 256);
  }

  lemma Append(s: Bytes, i: nat)
    requires i < |s|
    ensures FromLittleEndian(s[..i + 1]) == FromLittleEndian(s[..i]) + s[i] * Pow256(i)
  {
    assert s[..i + 1] == s[..i] + [s[i]];
    FromLittleEndianAppend(s[..i], s[i]);
  }

  /** One column of the addition. */
  lemma Carry(o: nat, a: nat, b: nat, carry: nat, x: nat, y: nat, ss: nat, p: nat)
    requires o + carry * p == a + b && ss == x + y + carry
    ensures o + ss % 256 * p + ss / 256 * (256 * p) == a + x * p + (b + y * p)
  {
    var low, high := ss % 256, ss / 256;
    assert low * p + high * (256 * p) == (low + 256 * high) * p;
    assert (x + y + carry) * p == x * p + y * p + carry * p;
  }

  lemma Overflow(out: Block, a: Block, b: Block, carry: nat)
    requires FromLittleEndian(out) + carry * Pow256(64) == FromLittleEndian(a) + FromLittleEndian(b)
    ensures out == Add512(a, b)
  {
    FromLittleEndianRoundTrip(out);
    CheckSum(a, b);
    Residue(Int512(out), carry, Pow256(64), Int512(a) + Int512(b));
    FromLittleEndianRoundTrip(Add512(a, b));
  }

  lemma Residue(o: nat, carry: nat, p: nat, v: nat)
    requires o < p && o + carry * p == v
    ensures v % p == o
  {
    ModMultiple(v, o, carry, p);
    SmallResidue(o, p);
  }

  // ----- the compression function

  /** e: twelve rounds over three reused buffers; `out` may be `k`. */
  method Rounds(t: Tables, out: array<byte>, k: array<byte>, msg: array<byte>)
    requires out.Length == 64 && k.Length == 64 && msg.Length == 64
    modifies out
    ensures out[..] == Encrypt(t, old(k[..]), old(msg[..]))
  {
    ghost var key, m := k[..], msg[..];
    var msgBuf := new byte[64](_ => 0);
    var kBuf := new byte[64](_ => 0);
    var xorBuf := new byte[64](_ => 0);
    var cBuf := new byte[64](_ => 0);
    var curK, curMsg := k, msg;
    ghost var rk: Block, rs: Block := key, m;
    for i := 0 to 12
      invariant fresh(msgBuf) && fresh(kBuf) && fresh(xorBuf) && fresh(cBuf)
      invariant curK == k || curK == kBuf
      invariant curMsg == msg || curMsg == msgBuf
      invariant curK[..] == rk == RoundKey(t, key, i) && curMsg[..] == rs == RoundState(t, key, m, i)
      invariant k[..] == key && msg[..] == m
    {
      OneRound(t, i, curK, curMsg, msgBuf, kBuf, xorBuf, cBuf);
      curMsg := msgBuf;
      curK := kBuf;
      rk, rs := NextRound(t, key, m, i, rk, rs);
    }
    XorBytes(out, curK, curMsg);
  }

  lemma NextRound(t: Tables, key: Block, m: Block, i: nat, rk: Block, rs: Block) returns (k: Block, s: Block)
    requires rk == RoundKey(t, key, i) && rs == RoundState(t, key, m, i)
    ensures k == t.lps(XorBlock(rk, t.c(i))) && s == t.lps(XorBlock(rk, rs))
    ensures k == RoundKey(t, key, i + 1) && s == RoundState(t, key, m, i + 1)
  {
    return t.lps(XorBlock(rk, t.c(i))), t.lps(XorBlock(rk, rs));
  }

  /** One round: the message and key buffers may be where the message and the key already are. */
  method OneRound(t: Tables, i: nat, k: array<byte>, msg: array<byte>, msgBuf: array<byte>, kBuf: array<byte>,
                  xorBuf: array<byte>, cBuf: array<byte>)
    requires k.Length == 64 && msg.Length == 64 && msgBuf.Length == 64 && kBuf.Length == 64
    requires xorBuf.Length == 64 && cBuf.Length == 64 && xorBuf != cBuf
    requires k !in {msgBuf, xorBuf, cBuf} && msg !in {kBuf, xorBuf, cBuf} && msgBuf !in {kBuf, xorBuf, cBuf}
    requires kBuf !in {xorBuf, cBuf}
    modifies msgBuf, kBuf, xorBuf, cBuf
    ensures msgBuf[..] == t.lps(XorBlock(old(k[..]), old(msg[..])))
    ensures kBuf[..] == t.lps(XorBlock(old(k[..]), t.c(i)))
  {
    XorBytes(xorBuf, k, msg);
    Lps(t, msgBuf, xorBuf);
    Fill(cBuf, t.c(i));
    XorBytes(xorBuf, k, cBuf);
    Lps(t, kBuf, xorBuf);
  }

  /** Mixes the eight bytes of a 64-bit length into a block. */
  method MixLength(out: array<byte>, n: nat)
    requires out.Length == 64 && n < U64_LIMIT
    modifies out
    ensures out[..] == XorBlock(old(out[..]), Vec512(n))
  {
    ghost var h := out[..];
    out[0] := Xor(out[0], ByteOf(n, 0));
    out[1] := Xor(out[1], ByteOf(n, 1));
    out[2] := Xor(out[2], ByteOf(n, 2));
    out[3] := Xor(out[3], ByteOf(n, 3));
    out[4] := Xor(out[4], ByteOf(n, 4));
    out[5] := Xor(out[5], ByteOf(n, 5));
    out[6] := Xor(out[6], ByteOf(n, 6));
    out[7] := Xor(out[7], ByteOf(n, 7));
    forall i | 0 <= i < 64
      ensures out[i] == XorBlock(h, Vec512(n))[i]
    {
      XorLength(h, n, i);
    }
  }

  /** g; the destination may be the chaining value itself. */
  method G(t: Tables, dst: array<byte>, n: nat, hsh: array<byte>, data: array<byte>)
    requires dst.Length == 64 && hsh.Length == 64 && data.Length == 64 && n < U64_LIMIT
    modifies dst
    ensures dst[..] == Compress(t, Vec512(n), old(hsh[..]), old(data[..]))
  {
    var out := new byte[64](_ => 0);
    Fill(out, hsh[..]);
    MixLength(out, n);
    Lps(t, out, out);
    Rounds(t, out, out, data);
    XorBytes(out, out, hsh);
    XorBytes(out, out, data);
    Fill(dst, out[..]);
  }

  /** The compression as the mode of operation sees it. */
  method Mix(t: Tables, ghost g: Compression, dst: array<byte>, n: nat, hsh: array<byte>, data: array<byte>)
    requires Implements(t, g)
    requires dst.Length == 64 && hsh.Length == 64 && data.Length == 64 && n < U64_LIMIT
    modifies dst
    ensures dst[..] == g(Vec512(n), old(hsh[..]), old(data[..]))
  {
    G(t, dst, n, hsh, data);
  }

  /** The three compressions of Sum. */
  method LastRounds(t: Tables, ghost g: Compression, out: array<byte>, n: nat, hsh: array<byte>,
                    block: array<byte>, length: array<byte>, checksum: array<byte>)
    requires out.Length == 64 && hsh.Length == 64 && block.Length == 64 && length.Length == 64 && checksum.Length == 64
    requires Implements(t, g) && n < U64_LIMIT && out !in {hsh, block, length, checksum}
    modifies out
    ensures out[..] == Streebog.LastBlocks(g, n, hsh[..], block[..], length[..], checksum[..])
  {
    ZeroVec();
    Mix(t, g, out, n, hsh, block);
    Mix(t, g, out, 0, out, length);
    Mix(t, g, out, 0, out, checksum);
  }

  class Hash {
    const t: Tables
    ghost const g: Compression
    const hsh: array<byte>
    const chk: array<byte>
    var buf: Bytes
    var n: nat
    var size: nat

    ghost predicate Valid()
      reads this
    {
      && Implements(t, g)
      && hsh.Length == 64 && chk.Length == 64 && hsh != chk && (size == 32 || size == 64) && n < U64_LIMIT && |buf| < 64
    }

    ghost function View(): State
      requires hsh.Length == 64 && chk.Length == 64
      reads this, hsh, chk
    {
      State(size, n, hsh[..], chk[..], buf)
    }

    constructor (t: Tables, size: nat)
      requires size == 32 || size == 64
      ensures Valid() && fresh(hsh) && fresh(chk) && this.t == t && View() == Fresh(size)
    {
      this.t := t;
      g := (n, h, m) => Compress(t, n, h, m);
      this.size := size;
      var h := new byte[64](_ => 0);
      var k := new byte[64](_ => 0);
      hsh := h;
      chk := k;
      buf := [];
      n := 0;
      new;
      Reset();
    }

    method Reset()
      requires Valid()
      modifies this`n, this`buf, hsh, chk
      ensures Valid() && View() == Fresh(old(size))
    {
      n := 0;
      buf := [];
      Fill(chk, seq(64, _ => 0));
      for i := 0 to 64
        invariant forall j :: 0 <= j < i ==> hsh[j] == if size == 32 then 1 else 0
        invariant chk[..] == seq(64, _ => 0) && n == 0 && buf == []
      {
        hsh[i] := if size == 32 then 1 else 0;
      }
    }

    /** The body of Write's loop. */
    method WriteBlock(addBuf: array<byte>, tmp: array<byte>)
      requires Implements(t, g) && hsh.Length == 64 && chk.Length == 64 && hsh != chk && n < U64_LIMIT && |buf| >= 64
      requires addBuf.Length == 64 && tmp.Length == 64 && addBuf != tmp
      requires {addBuf, tmp} !! {hsh, chk}
      modifies this`n, this`buf, hsh, chk, addBuf, tmp
      ensures n < U64_LIMIT && View() == OneBlock(g, old(View()))
    {
      var next: Block := buf[..64];
      Fill(tmp, next);
      Mix(t, g, hsh, n, hsh, tmp);
      Add512Bit(addBuf, chk, tmp);
      Fill(chk, addBuf[..]);
      n := (n + 512) % U64_LIMIT;
      buf := buf[64..];
    }

    method Write(data: Bytes) returns (written: nat)
      requires Valid()
      modifies this`n, this`buf, hsh, chk
      ensures Valid() && written == |data|
      ensures View() == Feed(g, old(View()), data)
    {
      ghost var target := Feed(g, View(), data);
      buf := buf + data;
      var addBuf := new byte[64](_ => 0);
      var tmp := new byte[64](_ => 0);
      while |buf| >= 64
        invariant fresh(addBuf) && fresh(tmp) && addBuf != tmp && n < U64_LIMIT
        invariant Drain(g, View()) == target
        decreases |buf|
      {
        WriteBlock(addBuf, tmp);
      }
      return |data|;
    }

    /** The three blocks that Sum compresses: the padded rest, the bit length and the checksum. */
    method LastBlocks() returns (block: array<byte>, length: array<byte>, checksum: array<byte>)
      requires Valid()
      ensures fresh(block) && fresh(length) && fresh(checksum)
      ensures block.Length == 64 && length.Length == 64 && checksum.Length == 64
      ensures block[..] == Padded(buf) && length[..] == LengthBlock(U64_LIMIT, n, buf)
      ensures checksum[..] == Add512(chk[..], Padded(buf))
    {
      block := PaddedBlock(buf);
      length := NumberBlock((n + 8 * |buf|) % U64_LIMIT);
      checksum := new byte[64](_ => 0);
      Add512Bit(checksum, chk, block);
    }

    /** Appends the digest to `prefix`; nothing of the hash changes. */
    method Sum(prefix: Bytes) returns (r: Bytes)
      requires Valid()
      ensures r == prefix + Digest(g, View())
    {
      var block, length, checksum := LastBlocks();
      var out := new byte[64](_ => 0);
      LastRounds(t, g, out, n, hsh, block, length, checksum);
      if size == 32 { return prefix + out[32..]; }
      return prefix + out[..];
    }

    method MarshalBinary() returns (data: array<byte>)
      requires Valid()
      ensures fresh(data) && data[..] == Marshal(View())
    {
      data := new byte[HEADER + |buf|](_ => 0);
      CopyAt(data, 0, NAME);
      var idx := |NAME|;
      data[idx] := size;
      idx := idx + 1;
      assert data[..idx] == NAME + [size];
      CopyAt(data, idx, U64(n));
      idx := idx + 8;
      CopyAt(data, idx, hsh[..]);
      idx := idx + 64;
      CopyAt(data, idx, chk[..]);
      idx := idx + 64;
      CopyAt(data, idx, buf);
      assert data[..] == data[..idx + |buf|];
    }

    /** Loads a saved state, or reports why not and changes nothing. */
    method UnmarshalBinary(data: Bytes) returns (r: Restored)
      requires Valid()
      modifies this`n, this`buf, this`size, hsh, chk
      ensures Valid() && r == Unmarshal(data)
      ensures View() == if r.Loaded? then r.state else old(View())
    {
      if |data| < HEADER { return TooShort; }
      if !(NAME <= data) { return NoPrefix; }
      assert data[..8] == NAME;
      if |data| - HEADER >= 64 { return BadBuffer; }
      var idx := |NAME|;
      var loaded: nat := data[idx];
      if loaded != 32 && loaded != 64 { return BadSize; }
      size := loaded;
      idx := idx + 1;
      n := FromBigEndian(data[idx..idx + 8]);
      Powers();
      FromBigEndianBound(data[idx..idx + 8]);
      idx := idx + 8;
      Fill(hsh, data[idx..idx + 64]);
      idx := idx + 64;
      Fill(chk, data[idx..idx + 64]);
      idx := idx + 64;
      buf := data[idx..];
      return Loaded(State(size, n, hsh[..], chk[..], buf));
    }
  }

  lemma {:induction false} Zeros(k: nat)
    ensures LittleEndian(k, 0) == seq(k, _ => 0)
  {
    if k > 0 { Zeros(k - 1); }
  }

  lemma ZeroVec()
    ensures Vec512(0) == Zero512()
  {
    Zeros(64);
  }

  /** A 64-bit length fills the first eight bytes of its 512-bit vector. */
  lemma ShortVec(n: nat)
    requires n < U64_LIMIT
    ensures Vec512(n) == LittleEndian(8, n) + seq(56, _ => 0)
  {
    Powers();
    forall i | 0 <= i < 64
      ensures Vec512(n)[i] == (LittleEndian(8, n) + seq(56, _ => 0))[i]
    {
      LittleEndianAt(64, n, i);
      if i < 8 { LittleEndianAt(8, n, i); } else { HighByteZero(n, 8, i); }
    }
  }
}
