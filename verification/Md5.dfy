// The streaming MD5 digest, with the block function left open.
module Md5 {
  type Byte = x: int | 0 <= x < 0x100
  type Word = x: int | 0 <= x < 0x1_0000_0000

  const BLOCK := 64
  const WORD := 0x1_0000_0000

  // The four words of the digest buffer.
  datatype Sum = Sum(a: Word, b: Word, c: Word, d: Word)

  const START := Sum(0x67452301, 0xefcdab89, 0x98badcfe, 0x10325476)

  // -------------------------------------------- the digest as RFC 1321 has it

  // The full blocks of m folded into sum, from the first to the last.
  ghost function Folded(process: (Sum, seq<Byte>) -> Sum, sum: Sum, m: seq<Byte>): Sum
    decreases |m|
  {
    if |m| < BLOCK then sum else Folded(process, process(sum, m[..BLOCK]), m[BLOCK..])
  }

  // What is left of m after its full blocks.
  ghost function Rest(m: seq<Byte>): (r: seq<Byte>)
    ensures |r| == |m| % BLOCK
  {
    m[|m| - |m| % BLOCK..]
  }

  // A number as n bytes, low-order byte first.
  function LowFirst(x: nat, n: nat): (b: seq<Byte>)
    ensures |b| == n
  {
    if n == 0 then [] else [x % 0x100] + LowFirst(x / 0x100, n - 1)
  }

  // The number of padding bytes: at least one, and so many that a block lacks
  // only the eight bytes of the length.
  function PadLength(n: nat): nat {
    (55 - n) % BLOCK + 1
  }

  function ZeroBytes(n: nat): seq<Byte> {
    seq(n, _ => 0)
  }

  // The message with padding and length, sections 3.1 and 3.2.
  function Padded(m: seq<Byte>): seq<Byte> {
    m + [0x80] + ZeroBytes(PadLength(|m|) - 1) + LowFirst(8 * |m| % (WORD * WORD), 8)
  }

  // The digest, sections 3.3 to 3.5.
  ghost function Digest(process: (Sum, seq<Byte>) -> Sum, m: seq<Byte>): seq<Byte> {
    Bytes(Folded(process, START, Padded(m)))
  }

  // Byte j of a number, counted from the low-order one.
  function ByteOf(x: nat, j: nat): Byte {
    if j == 0 then x % 0x100 else ByteOf(x / 0x100, j - 1)
  }

  // Words as bytes, low-order word and byte first.
  ghost function Stored(w: seq<Word>): (b: seq<Byte>)
    ensures |b| == 4 * |w|
    ensures forall i | 0 <= i < |b| :: b[i] == ByteOf(w[i / 4], i % 4)
  {
    seq(4 * |w|, i requires 0 <= i < 4 * |w| => ByteOf(w[i / 4], i % 4))
  }

  ghost function Bytes(s: Sum): (b: seq<Byte>)
    ensures |b| == 16
  {
    Stored([s.a, s.b, s.c, s.d])
  }

  lemma {:induction false} LowFirstAt(x: nat, n: nat, j: nat)
    requires j < n
    ensures LowFirst(x, n)[j] == ByteOf(x, j)
  {
    if j > 0 {
      LowFirstAt(x / 0x100, n - 1, j - 1);
    }
  }

  // Byte by byte, each shifted down from its word.
  method StoreWords(w: seq<Word>) returns (b: seq<Byte>)
    ensures b == Stored(w)
  {
    b := [];
    var i := 0;
    while i < 4 * |w|
      invariant 0 <= i <= 4 * |w| && b == Stored(w)[..i]
    {
      b := b + [ByteOf(w[i / 4], i % 4)];
      i := i + 1;
    }
  }

  // ---------------------------------------------------------------- padding

  // Between 1 and 64 bytes of padding, and only this number of them ends eight
  // bytes before the end of a block.
  lemma PadEndsBlock(n: nat, p: nat)
    requires 1 <= p <= BLOCK
    ensures 1 <= PadLength(n) <= BLOCK
    ensures (n + p + 8) % BLOCK == 0 <==> p == PadLength(n)
  {
  }

  lemma PaddedLength(m: seq<Byte>)
    ensures |Padded(m)| == |m| + PadLength(|m|) + 8 && |Padded(m)| % BLOCK == 0
  {
    PadEndsBlock(|m|, PadLength(|m|));
  }

  // Behind the message come the byte 128, zeros, and in the last eight bytes the
  // length in bits, low-order byte first.
  lemma PaddedBytes(m: seq<Byte>)
    ensures var p := Padded(m);
            && |p| >= |m| + 9 && p[..|m|] == m && p[|m|] == 0x80
            && (forall i | |m| < i < |p| - 8 :: p[i] == 0)
            && WordOf(p[|p| - 8..]) == 8 * |m| % 0x1_0000_0000_0000_0000
  {
    var n, p := 8 * |m| % (WORD * WORD), Padded(m);
    PaddedLength(m);
    assert p[|p| - 8..] == LowFirst(n, 8);
    assert Power(8) == 0x1_0000_0000_0000_0000;
    LowFirstBack(n, 8);
  }

  // The start value, as bytes from the low-order one of the first word on: RFC
  // 1321, section 3.3.
  lemma StartBytes()
    ensures Bytes(START) == [0x01, 0x23, 0x45, 0x67, 0x89, 0xab, 0xcd, 0xef,
                             0xfe, 0xdc, 0xba, 0x98, 0x76, 0x54, 0x32, 0x10]
  {
    FourBytes(0x67452301, 0x01, 0x23, 0x45, 0x67);
    FourBytes(0xefcdab89, 0x89, 0xab, 0xcd, 0xef);
    FourBytes(0x98badcfe, 0xfe, 0xdc, 0xba, 0x98);
    FourBytes(0x10325476, 0x76, 0x54, 0x32, 0x10);
  }

  lemma FourBytes(x: Word, a: Byte, b: Byte, c: Byte, d: Byte)
    requires var e: int, f: int, g: int, h: int := a, b, c, d; x == e + 0x100 * (f + 0x100 * (g + 0x100 * h))
    ensures ByteOf(x, 0) == a && ByteOf(x, 1) == b && ByteOf(x, 2) == c && ByteOf(x, 3) == d
  {
    var y := x / 0x100;
    var z := y / 0x100;
    assert y % 0x100 == b && z % 0x100 == c && z / 0x100 == d;
    assert ByteOf(x, 2) == ByteOf(y, 1) == z % 0x100;
    assert ByteOf(x, 3) == ByteOf(y, 2) == ByteOf(z, 1) == z / 0x100 % 0x100;
  }

  ghost function WordOf(b: seq<Byte>): nat {
    if b == [] then 0 else b[0] + 0x100 * WordOf(b[1..])
  }

  ghost function Power(n: nat): (p: nat)
    ensures p >= 1
  {
    if n == 0 then 1 else 0x100 * Power(n - 1)
  }

  lemma {:induction false} LowFirstBack(x: nat, n: nat)
    requires x < Power(n)
    ensures WordOf(LowFirst(x, n)) == x
  {
    if n > 0 {
      LowFirstBack(x / 0x100, n - 1);
      assert LowFirst(x, n)[1..] == LowFirst(x / 0x100, n - 1);
    }
  }

  // Different messages stay different, whatever their length.
  lemma PaddedInjective(m: seq<Byte>, n: seq<Byte>)
    requires Padded(m) == Padded(n)
    ensures m == n
  {
    PaddedLength(m);
    PaddedLength(n);
    PadEndsBlock(|m|, PadLength(|m|));
    PadEndsBlock(|n|, PadLength(|n|));
    var k, l := 8 * |m| % (WORD * WORD), 8 * |n| % (WORD * WORD);
    assert Padded(m)[|Padded(m)| - 8..] == LowFirst(k, 8);
    assert Padded(n)[|Padded(n)| - 8..] == LowFirst(l, 8);
    assert Power(8) == WORD * WORD by {
      assert Power(4) == WORD && Power(5) == 0x100 * WORD && Power(6) == 0x10000 * WORD;
    }
    LowFirstBack(k, 8);
    LowFirstBack(l, 8);
    assert k == l;
    CloseLengths(|m|, |n|);
    assert Padded(m)[..|m|] == m && Padded(n)[..|m|] == n;
  }

  lemma CloseLengths(m: nat, n: nat)
    requires 8 * m % (WORD * WORD) == 8 * n % (WORD * WORD) && -64 < m - n < 64
    ensures m == n
  {
  }

  // ------------------------------------------------------------------ folding

  lemma {:induction false} FoldedBlocks(process: (Sum, seq<Byte>) -> Sum, sum: Sum, a: seq<Byte>, b: seq<Byte>)
    requires |a| % BLOCK == 0
    ensures Folded(process, sum, a + b) == Folded(process, Folded(process, sum, a), b)
    decreases |a|
  {
    if a == [] {
      assert a + b == b;
    } else {
      assert (a + b)[..BLOCK] == a[..BLOCK] && (a + b)[BLOCK..] == a[BLOCK..] + b;
      FoldedBlocks(process, process(sum, a[..BLOCK]), a[BLOCK..], b);
    }
  }

  // Only the full blocks count.
  lemma FoldedRest(process: (Sum, seq<Byte>) -> Sum, sum: Sum, a: seq<Byte>, b: seq<Byte>)
    requires |a| % BLOCK == 0 && |b| < BLOCK
    ensures Folded(process, sum, a + b) == Folded(process, sum, a) && Rest(a + b) == b
  {
    FoldedBlocks(process, sum, a, b);
  }

  lemma FoldedOne(process: (Sum, seq<Byte>) -> Sum, sum: Sum, a: seq<Byte>, b: seq<Byte>)
    requires |a| % BLOCK == 0 && |b| == BLOCK
    ensures Folded(process, sum, a + b) == process(Folded(process, sum, a), b)
  {
    FoldedBlocks(process, sum, a, b);
    var t := Folded(process, sum, a);
    assert b[..BLOCK] == b && b[BLOCK..] == [];
    assert Folded(process, process(t, b), []) == process(t, b);
  }

  // More bytes behind m that fit into its last block.
  lemma FoldedFill(process: (Sum, seq<Byte>) -> Sum, m: seq<Byte>, more: seq<Byte>, filled: seq<Byte>)
    requires filled == Rest(m) + more && |filled| <= BLOCK
    ensures |filled| < BLOCK ==>
      Folded(process, START, m + more) == Folded(process, START, m) && Rest(m + more) == filled
    ensures |filled| == BLOCK ==>
      Folded(process, START, m + more) == process(Folded(process, START, m), filled)
  {
    var full := m[..|m| - |m| % BLOCK];
    assert m == full + Rest(m) && m + more == full + filled;
    FoldedRest(process, START, full, Rest(m));
    if |filled| < BLOCK {
      FoldedRest(process, START, full, filled);
    } else {
      FoldedOne(process, START, full, filled);
    }
  }

  // ---------------------------------------------------------------- counting

  // The two count words after n bytes.
  predicate Counts(count0: nat, count1: nat, n: nat) {
    count0 == 8 * n % WORD && count1 == 8 * n / WORD % WORD
  }

  lemma DividedBy(a: nat, q: nat, r: nat)
    requires a == WORD * q + r && r < WORD
    ensures a / WORD == q && a % WORD == r
  {
  }

  lemma CarryUp(h: nat, g: nat, carry: nat)
    ensures (h % WORD + g) % WORD == (h + g) % WORD
    ensures ((h + g) % WORD + carry) % WORD == (h + g + carry) % WORD
  {
    var x, y := h / WORD, (h + g) / WORD;
    assert h % WORD + g == h + g - WORD * x;
  }

  lemma CountMore(n: nat, more: nat)
    ensures var c0, c1, nbits := 8 * n % WORD, 8 * n / WORD % WORD, 8 * more % WORD;
            var d0, d1 := (c0 + nbits) % WORD, (c1 + more / 0x2000_0000) % WORD;
            Counts(d0, if d0 < nbits then (d1 + 1) % WORD else d1, n + more)
  {
    var c0, h, nbits, g := 8 * n % WORD, 8 * n / WORD, 8 * more % WORD, more / 0x2000_0000;
    assert 8 * n == WORD * h + c0;
    assert 8 * more == WORD * g + nbits by {
      var r := more % 0x2000_0000;
      assert more == 0x2000_0000 * g + r;
      DividedBy(8 * more, g, 8 * r);
    }
    var carry := if c0 + nbits >= WORD then 1 else 0;
    DividedBy(8 * (n + more), h + g + carry, c0 + nbits - WORD * carry);
    DividedBy(c0 + nbits, carry, c0 + nbits - WORD * carry);
    CarryUp(h, g, carry);
  }

  // The low count word tells the length up to whole blocks.
  lemma LowCount(n: nat) returns (t: nat)
    ensures n == 8 * n % WORD / 8 + BLOCK * t
  {
    var h := 8 * n / WORD;
    assert 8 * n % WORD == 8 * (n - 0x2000_0000 * h);
    t := 0x80_0000 * h;
  }

  lemma SameInBlock(x: int, y: int, t: int)
    requires y == x + BLOCK * t
    ensures y % BLOCK == x % BLOCK
  {
  }

  // Where the next byte goes, and how much padding there will be.
  lemma OffsetOf(n: nat)
    ensures 8 * n % WORD / 8 % BLOCK == n % BLOCK
    ensures (55 - 8 * n % WORD / 8) % BLOCK + 1 == PadLength(n)
  {
    var t := LowCount(n);
    var x := 8 * n % WORD / 8;
    SameInBlock(x, n, t);
    var u: int := t;
    SameInBlock(55 - x, 55 - n, -u);
  }

  lemma InBlock(n: nat, more: nat)
    requires n % BLOCK + more <= BLOCK
    ensures (n + more) % BLOCK == if n % BLOCK + more < BLOCK then n % BLOCK + more else 0
  {
  }

  lemma Slices(m: seq<Byte>, data: seq<Byte>, i: nat, j: nat, k: nat)
    requires i <= j <= k <= |data|
    ensures m + data[i..j] + data[j..k] == m + data[i..k]
  {
    assert data[i..k] == data[i..j] + data[j..k];
  }

  // ------------------------------------------------------------------ streams

  class State {
    var count0: Word
    var count1: Word
    var abcd: Sum
    const buf: array<Byte>
    const process: (Sum, seq<Byte>) -> Sum

    // The state after the bytes of m.
    ghost predicate Absorbed(m: seq<Byte>)
      reads this, buf
    {
      && buf.Length == BLOCK
      && Counts(count0, count1, |m|)
      && abcd == Folded(process, START, m)
      && Rest(m) <= buf[..]
    }

    constructor (process: (Sum, seq<Byte>) -> Sum)
      ensures Absorbed([]) && fresh(buf) && this.process == process
    {
      count0, count1, abcd := 0, 0, START;
      buf := new Byte[64](_ => 0);
      this.process := process;
    }

    method Count(nbytes: nat, ghost n: nat)
      requires nbytes < 0x8000_0000 && Counts(count0, count1, n)
      modifies this`count0, this`count1
      ensures Counts(count0, count1, n + nbytes)
    {
      var nbits := 8 * nbytes % WORD;
      CountMore(n, nbytes);
      count1 := (count1 + nbytes / 0x2000_0000) % WORD;
      count0 := (count0 + nbits) % WORD;
      if count0 < nbits {
        count1 := (count1 + 1) % WORD;
      }
    }

    // The first nbytes bytes of data follow the bytes of m.
    method Append(data: seq<Byte>, nbytes: int, ghost m: seq<Byte>)
      requires Absorbed(m) && nbytes <= |data| && nbytes < 0x8000_0000
      modifies this, buf
      ensures Absorbed(m + if nbytes <= 0 then [] else data[..nbytes])
    {
      OffsetOf(|m|);
      var offset := count0 / 8 % BLOCK;
      if nbytes <= 0 {
        assert m + [] == m;
        return;
      }
      Count(nbytes, |m|);
      Absorb(data, nbytes, offset, m);
    }

    // The bytes go into the buffer and through the block function.
    method Absorb(data: seq<Byte>, nbytes: nat, offset: nat, ghost m: seq<Byte>)
      requires buf.Length == BLOCK && offset == |m| % BLOCK && nbytes <= |data|
      requires abcd == Folded(process, START, m) && Rest(m) <= buf[..]
      modifies this`abcd, buf
      ensures abcd == Folded(process, START, m + data[..nbytes])
      ensures Rest(m + data[..nbytes]) <= buf[..]
    {
      var p, left := 0, nbytes;
      if offset != 0 {
        var copy := if offset + nbytes > BLOCK then BLOCK - offset else nbytes;
        FillUp(data, offset, copy, m);
        if offset + copy < BLOCK {
          return;
        }
        p := p + copy;
        left := left - copy;
      } else {
        assert m + data[..p] == m;
      }
      InBlock(|m|, p);
      Slices(m, data, 0, p, nbytes);
      assert data[..p] == data[0..p] && data[..nbytes] == data[0..nbytes];
      Blocks(data, p, left, m + data[..p]);
    }

    // The partial block goes on with the first bytes of data, and is processed
    // when it is full.
    method FillUp(data: seq<Byte>, offset: nat, copy: nat, ghost m: seq<Byte>)
      requires buf.Length == BLOCK && offset == |m| % BLOCK && copy <= |data| && offset + copy <= BLOCK
      requires abcd == Folded(process, START, m) && Rest(m) <= buf[..]
      modifies this`abcd, buf
      ensures abcd == Folded(process, START, m + data[..copy])
      ensures offset + copy < BLOCK ==> Rest(m + data[..copy]) <= buf[..]
    {
      forall i | 0 <= i < copy {
        buf[offset + i] := data[i];
      }
      assert buf[..offset + copy] == Rest(m) + data[..copy];
      FoldedFill(process, m, data[..copy], buf[..offset + copy]);
      if offset + copy == BLOCK {
        assert buf[..] == buf[..offset + copy];
        abcd := process(abcd, buf[..]);
      }
    }

    // The full blocks of data from place p on, and then the rest.
    method Blocks(data: seq<Byte>, start: nat, nbytes: nat, ghost m: seq<Byte>)
      requires buf.Length == BLOCK && start + nbytes <= |data| && |m| % BLOCK == 0
      requires abcd == Folded(process, START, m)
      modifies this`abcd, buf
      ensures abcd == Folded(process, START, m + data[start..start + nbytes])
      ensures Rest(m + data[start..start + nbytes]) <= buf[..]
    {
      var p, left := start, nbytes;
      ghost var done := m;
      assert m + data[start..p] == m;
      while left >= BLOCK
        invariant 0 <= left <= nbytes && p == start + nbytes - left
        invariant done == m + data[start..p] && |done| % BLOCK == 0
        invariant abcd == Folded(process, START, done)
      {
        FoldedOne(process, START, done, data[p..p + BLOCK]);
        abcd := process(abcd, data[p..p + BLOCK]);
        Slices(m, data, start, p, p + BLOCK);
        done := m + data[start..p + BLOCK];
        p := p + BLOCK;
        left := left - BLOCK;
      }
      if left != 0 {
        forall i | 0 <= i < left {
          buf[i] := data[p + i];
        }
      }
      assert buf[..left] == data[p..p + left];
      Slices(m, data, start, p, p + left);
      FoldedRest(process, START, done, data[p..p + left]);
    }

    // The digest of all bytes so far.
    method Finish(ghost m: seq<Byte>) returns (digest: seq<Byte>)
      requires Absorbed(m)
      modifies this, buf
      ensures digest == Digest(process, m)
    {
      OffsetOf(|m|);
      var data := StoreWords([count0, count1]);
      StoredTwo(count0, count1);
      var pad := [0x80] + ZeroBytes(63);
      var k := (55 - count0 / 8) % BLOCK + 1;
      Append(pad, k, m);
      Append(data, 8, m + pad[..k]);
      PaddedInParts(m, pad[..k], data[..8]);
      digest := StoreWords([abcd.a, abcd.b, abcd.c, abcd.d]);
    }
  }

  lemma StoredOne(x: Word)
    ensures Stored([x]) == LowFirst(x, 4)
  {
    var s, low := Stored([x]), LowFirst(x, 4);
    forall i | 0 <= i < 4 ensures s[i] == low[i] {
      LowFirstAt(x, 4, i);
      assert i / 4 == 0 && i % 4 == i;
    }
  }

  lemma StoredTwo(x: Word, y: Word)
    ensures Stored([x, y]) == LowFirst(x, 4) + LowFirst(y, 4)
  {
    StoredOne(x);
    StoredOne(y);
    assert Stored([x, y]) == Stored([x]) + Stored([y]);
  }

  lemma PaddedInParts(m: seq<Byte>, pad: seq<Byte>, data: seq<Byte>)
    requires pad == [0x80] + ZeroBytes(PadLength(|m|) - 1)
    requires data == LowFirst(8 * |m| % WORD, 4) + LowFirst(8 * |m| / WORD % WORD, 4)
    ensures m + pad + data == Padded(m)
  {
    CountBytes(|m|);
  }

  lemma ByteSplit(x: nat, v: nat)
    ensures (x + 0x100 * v) % 0x100 == x % 0x100 && (x + 0x100 * v) / 0x100 == x / 0x100 + v
  {
  }

  lemma {:induction false} LowFirstSplit(x: nat, y: nat, n: nat, k: nat)
    requires x < Power(n)
    ensures LowFirst(x + Power(n) * y, n + k) == LowFirst(x, n) + LowFirst(y, k)
  {
    if n > 0 {
      var z, v := x + Power(n) * y, Power(n - 1) * y;
      assert z == x + 0x100 * v;
      ByteSplit(x, v);
      LowFirstSplit(x / 0x100, y, n - 1, k);
      assert LowFirst(z, n + k) == [z % 0x100] + LowFirst(z / 0x100, n - 1 + k);
    }
  }

  lemma LongMod(a: nat, q: nat, r: nat)
    requires a == WORD * WORD * q + r && r < WORD * WORD
    ensures a % (WORD * WORD) == r
  {
  }

  // The count words are the length in bits.
  lemma CountBytes(n: nat)
    ensures LowFirst(8 * n % WORD, 4) + LowFirst(8 * n / WORD % WORD, 4) == LowFirst(8 * n % (WORD * WORD), 8)
  {
    assert Power(4) == WORD;
    var q := 8 * n / WORD;
    var c0, c1, h := 8 * n % WORD, q % WORD, q / WORD;
    assert 8 * n == WORD * q + c0 && q == WORD * h + c1;
    LongMod(8 * n, h, c0 + WORD * c1);
    LowFirstSplit(c0, c1, 4, 4);
  }

  // ------------------------------------------------------- the ring's own use

  // The digest of a whole string.
  method Md5Digest(process: (Sum, seq<Byte>) -> Sum, instr: seq<Byte>) returns (digest: seq<Byte>)
    requires |instr| < 0x8000_0000
    ensures digest == Digest(process, instr)
  {
    var state := new State(process);
    state.Append(instr, |instr|, []);
    assert [] + instr == instr && instr[..|instr|] == instr;
    digest := state.Finish(instr);
  }

  // Four bytes as a number, low-order byte first.
  function WordAt(b: seq<Byte>, i: nat): Word
    requires i + 4 <= |b|
  {
    var x: int, y: int, z: int, u: int := b[i], b[i + 1], b[i + 2], b[i + 3];
    x + 0x100 * y + 0x1_0000 * z + 0x100_0000 * u
  }

  // The default hash of the ring: the words of the digest added up, which no
  // long overflows.
  method HashDef(process: (Sum, seq<Byte>) -> Sum, instr: seq<Byte>) returns (hash: int)
    requires |instr| < 0x8000_0000
    ensures var s := Folded(process, START, Padded(instr)); hash == s.a + s.b + s.c + s.d
    ensures 0 <= hash < 4 * WORD
  {
    var digest := Md5Digest(process, instr);
    ghost var s := Folded(process, START, Padded(instr));
    SumWords(s);
    hash := 0;
    var i := 0;
    while i < 4
      invariant 0 <= i <= 4
      invariant hash == (if i > 0 then s.a else 0) + (if i > 1 then s.b else 0)
                        + (if i > 2 then s.c else 0) + (if i > 3 then s.d else 0)
    {
      hash := hash + WordAt(digest, 4 * i);
      i := i + 1;
    }
  }

  lemma WordBack(x: Word)
    ensures ByteOf(x, 0) + 0x100 * ByteOf(x, 1) + 0x1_0000 * ByteOf(x, 2) + 0x100_0000 * ByteOf(x, 3) == x
  {
    var y := x / 0x100;
    var z := y / 0x100;
    assert ByteOf(x, 1) == y % 0x100 && ByteOf(x, 2) == ByteOf(y, 1) == z % 0x100;
    assert ByteOf(x, 3) == ByteOf(y, 2) == ByteOf(z, 1) == z / 0x100 % 0x100;
  }

  lemma SumWords(s: Sum)
    ensures var b := Bytes(s);
            WordAt(b, 0) == s.a && WordAt(b, 4) == s.b && WordAt(b, 8) == s.c && WordAt(b, 12) == s.d
  {
    WordBack(s.a);
    WordBack(s.b);
    WordBack(s.c);
    WordBack(s.d);
  }
}
