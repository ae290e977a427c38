/** SHA-256 over a stream of byte strings, against sections 4 to 6 of FIPS 180-4: however the stream is
    cut, the hasher keeps the hash of the complete blocks and the bytes behind them. */
module Sha256 {
  import opened Utf

  /** A 32-bit machine word. */
  datatype Word = Word(bits: bv32)

  const BLOCK: nat := 64

  /** Section 4.2.2. */
  const K: seq<Word> :=
    [Word(0x428a2f98), Word(0x71374491), Word(0xb5c0fbcf), Word(0xe9b5dba5),
     Word(0x3956c25b), Word(0x59f111f1), Word(0x923f82a4), Word(0xab1c5ed5)] +
    [Word(0xd807aa98), Word(0x12835b01), Word(0x243185be), Word(0x550c7dc3),
     Word(0x72be5d74), Word(0x80deb1fe), Word(0x9bdc06a7), Word(0xc19bf174)] +
    [Word(0xe49b69c1), Word(0xefbe4786), Word(0x0fc19dc6), Word(0x240ca1cc),
     Word(0x2de92c6f), Word(0x4a7484aa), Word(0x5cb0a9dc), Word(0x76f988da)] +
    [Word(0x983e5152), Word(0xa831c66d), Word(0xb00327c8), Word(0xbf597fc7),
     Word(0xc6e00bf3), Word(0xd5a79147), Word(0x06ca6351), Word(0x14292967)] +
    [Word(0x27b70a85), Word(0x2e1b2138), Word(0x4d2c6dfc), Word(0x53380d13),
     Word(0x650a7354), Word(0x766a0abb), Word(0x81c2c92e), Word(0x92722c85)] +
    [Word(0xa2bfe8a1), Word(0xa81a664b), Word(0xc24b8b70), Word(0xc76c51a3),
     Word(0xd192e819), Word(0xd6990624), Word(0xf40e3585), Word(0x106aa070)] +
    [Word(0x19a4c116), Word(0x1e376c08), Word(0x2748774c), Word(0x34b0bcb5),
     Word(0x391c0cb3), Word(0x4ed8aa4a), Word(0x5b9cca4f), Word(0x682e6ff3)] +
    [Word(0x748f82ee), Word(0x78a5636f), Word(0x84c87814), Word(0x8cc70208),
     Word(0x90befffa), Word(0xa4506ceb), Word(0xbef9a3f7), Word(0xc67178f2)]

  // ---- Section 4.1.2: functions ----

  function Xor(x: Word, y: Word): Word { Word(x.bits ^ y.bits) }
  function And(x: Word, y: Word): Word { Word(x.bits & y.bits) }
  function Not(x: Word): Word { Word(!x.bits) }

  function Rotr(x: Word, n: bv6): Word
    requires 0 < n < 32
  {
    Word((x.bits >> n) | (x.bits << (32 - n)))
  }

  function Shr(x: Word, n: bv6): Word
    requires n < 32
  {
    Word(x.bits >> n)
  }

  function Ch(x: Word, y: Word, z: Word): Word { Xor(And(x, y), And(Not(x), z)) }
  function Maj(x: Word, y: Word, z: Word): Word { Xor(Xor(And(x, y), And(x, z)), And(y, z)) }
  function BigSigma0(x: Word): Word { Xor(Xor(Rotr(x, 2), Rotr(x, 13)), Rotr(x, 22)) }
  function BigSigma1(x: Word): Word { Xor(Xor(Rotr(x, 6), Rotr(x, 11)), Rotr(x, 25)) }
  function SmallSigma0(x: Word): Word { Xor(Xor(Rotr(x, 7), Rotr(x, 18)), Shr(x, 3)) }
  function SmallSigma1(x: Word): Word { Xor(Xor(Rotr(x, 17), Rotr(x, 19)), Shr(x, 10)) }

  /** Addition modulo 2^32. */
  function Plus(x: Word, y: Word): Word { Word(x.bits + y.bits) }

  /** A big-endian word. */
  function WordOf(b0: Byte, b1: Byte, b2: Byte, b3: Byte): Word {
    Word((b0 as bv32 << 24) | (b1 as bv32 << 16) | (b2 as bv32 << 8) | b3 as bv32)
  }

  function LowByte(bits: bv32): Byte { (bits & 0xFF) as bv8 as int }

  function BytesOf(w: Word): (bytes: seq<Byte>)
    ensures |bytes| == 4
  {
    [LowByte(w.bits >> 24), LowByte(w.bits >> 16), LowByte(w.bits >> 8), LowByte(w.bits)]
  }

  // ---- Section 6.2.2: one block ----

  datatype State = State(a: Word, b: Word, c: Word, d: Word, e: Word, f: Word, g: Word, h: Word)

  /** Section 5.3.3. */
  const INITIAL: State := State(Word(0x6a09e667), Word(0xbb67ae85), Word(0x3c6ef372), Word(0xa54ff53a),
                                Word(0x510e527f), Word(0x9b05688c), Word(0x1f83d9ab), Word(0x5be0cd19))

  ghost predicate IsBlock(block: seq<Byte>) { |block| == BLOCK }

  /** Word t of the message schedule. */
  ghost function W(block: seq<Byte>, t: nat): Word
    requires IsBlock(block)
  {
    if t < 16 then WordOf(block[4 * t], block[4 * t + 1], block[4 * t + 2], block[4 * t + 3])
    else Plus(Plus(Plus(W(block, t - 16), SmallSigma0(W(block, t - 15))), W(block, t - 7)), SmallSigma1(W(block, t - 2)))
  }

  function Round(s: State, k: Word, w: Word): State {
    var t1 := Plus(Plus(Plus(Plus(s.h, BigSigma1(s.e)), Ch(s.e, s.f, s.g)), k), w);
    var t2 := Plus(BigSigma0(s.a), Maj(s.a, s.b, s.c));
    State(Plus(t1, t2), s.a, s.b, s.c, Plus(s.d, t1), s.e, s.f, s.g)
  }

  /** The working variables after the first t rounds. */
  ghost function Rounds(s: State, block: seq<Byte>, t: nat): State
    requires IsBlock(block) && t <= 64
  {
    if t == 0 then s else Round(Rounds(s, block, t - 1), K[t - 1], W(block, t - 1))
  }

  function Added(x: State, y: State): State {
    State(Plus(x.a, y.a), Plus(x.b, y.b), Plus(x.c, y.c), Plus(x.d, y.d),
          Plus(x.e, y.e), Plus(x.f, y.f), Plus(x.g, y.g), Plus(x.h, y.h))
  }

  ghost function Compressed(s: State, block: seq<Byte>): State
    requires IsBlock(block)
  {
    Added(s, Rounds(s, block, 64))
  }

  /** The hash value after the first n blocks of a message. */
  ghost function HashBlocks(message: seq<Byte>, n: nat): State
    requires BLOCK * n <= |message|
  {
    if n == 0 then INITIAL
    else Compressed(HashBlocks(message, n - 1), message[BLOCK * (n - 1)..BLOCK * n])
  }

  ghost function HashOf(message: seq<Byte>): State {
    HashBlocks(message, |message| / BLOCK)
  }

  // ---- Section 5.1.1: padding ----

  const TWO64: nat := 0x1_0000_0000_0000_0000

  /** The byte of weight 256^(7 - i) of a 64-bit number. */
  function LengthByte(bits: nat, i: nat): Byte
    requires i < 8
  {
    bits / Weight(7 - i) % 0x100
  }

  function Weight(n: nat): (w: nat)
    ensures w > 0
  {
    if n == 0 then 1 else 0x100 * Weight(n - 1)
  }

  function LengthBytes(bits: nat): (bytes: seq<Byte>)
    ensures |bytes| == 8
  {
    seq(8, i requires 0 <= i < 8 => LengthByte(bits, i))
  }

  function Zeros(n: nat): (zeros: seq<Byte>)
    ensures |zeros| == n
  {
    seq(n, i => 0)
  }

  /** The least number of zero bytes that leaves eight bytes free in the last block. */
  function ZeroCount(length: nat): (n: nat)
    ensures n < BLOCK && (length + 1 + n) % BLOCK == BLOCK - 8
  {
    var used := length % BLOCK;
    if used < BLOCK - 8 then BLOCK - 9 - used else 2 * BLOCK - 9 - used
  }

  /** The bit length is kept modulo 2^64. */
  ghost function Padded(message: seq<Byte>): (padded: seq<Byte>) {
    message + [0x80] + Zeros(ZeroCount(|message|)) + LengthBytes(8 * |message| % TWO64)
  }

  function DigestOf(s: State): (digest: seq<Byte>)
    ensures |digest| == 32
  {
    BytesOf(s.a) + BytesOf(s.b) + BytesOf(s.c) + BytesOf(s.d) + BytesOf(s.e) + BytesOf(s.f) + BytesOf(s.g) + BytesOf(s.h)
  }

  ghost function MessageDigest(message: seq<Byte>): (digest: seq<Byte>)
    ensures |digest| == 32
  {
    DigestOf(HashOf(Padded(message)))
  }

  // ---- The streaming hasher ----

  /** The bytes behind the last complete block. */
  function Tail(message: seq<Byte>): (tail: seq<Byte>)
    ensures |tail| == |message| % BLOCK
  {
    message[BLOCK * (|message| / BLOCK)..]
  }

  lemma {:induction false} BlocksOfFront(message: seq<Byte>, more: seq<Byte>, n: nat)
    requires BLOCK * n <= |message|
    ensures HashBlocks(message + more, n) == HashBlocks(message, n)
  {
    hide Compressed;
    if n > 0 {
      BlocksOfFront(message, more, n - 1);
      assert (message + more)[BLOCK * (n - 1)..BLOCK * n] == message[BLOCK * (n - 1)..BLOCK * n];
    }
  }

  /** A block that becomes complete is compressed into the hash of what came before. */
  lemma BlockCompletes(message: seq<Byte>, more: seq<Byte>)
    requires |message| % BLOCK + |more| == BLOCK
    ensures HashOf(message + more) == Compressed(HashOf(message), Tail(message) + more)
    ensures Tail(message + more) == []
  {
    hide Compressed;
    var n := |message| / BLOCK;
    assert |message + more| == BLOCK * (n + 1);
    BlocksOfFront(message, more, n);
    assert (message + more)[BLOCK * n..BLOCK * (n + 1)] == Tail(message) + more;
  }

  lemma TailGrows(message: seq<Byte>, more: seq<Byte>)
    requires |message| % BLOCK + |more| < BLOCK
    ensures HashOf(message + more) == HashOf(message) && Tail(message + more) == Tail(message) + more
  {
    hide HashBlocks;
    var n := |message| / BLOCK;
    SameBlocks(|message|, |more|);
    BlocksOfFront(message, more, n);
    assert (message + more)[BLOCK * n..] == message[BLOCK * n..] + more;
  }

  lemma SameBlocks(length: nat, more: nat)
    requires length % BLOCK + more < BLOCK
    ensures (length + more) / BLOCK == length / BLOCK
  {
  }

  lemma {:induction false} ScheduleStart(block: seq<Byte>, t: nat)
    requires IsBlock(block) && t < 16
    ensures W(block, t) == WordOf(block[t * 4], block[t * 4 + 1], block[t * 4 + 2], block[t * 4 + 3])
  {
    hide WordOf;
  }

  lemma {:induction false} ScheduleStep(block: seq<Byte>, t: nat)
    requires IsBlock(block) && 16 <= t
    ensures W(block, t) == Plus(Plus(Plus(W(block, t - 16), SmallSigma0(W(block, t - 15))), W(block, t - 7)), SmallSigma1(W(block, t - 2)))
  {
    hide SmallSigma0, SmallSigma1, WordOf, Plus;
  }

  function Min(a: nat, b: nat): nat { if a < b then a else b }

  class Hasher {
    var state: array<Word>
    var bitLength: nat
    var buffer: array<Byte>
    var bufferLen: nat
    /** Every byte absorbed so far. */
    ghost var message: seq<Byte>

    ghost function StateValue(): State
      reads this`state, state
      requires state.Length == 8
    {
      State(state[0], state[1], state[2], state[3], state[4], state[5], state[6], state[7])
    }

    ghost predicate Valid()
      reads this, state, buffer
    {
      && state.Length == 8 && buffer.Length == BLOCK && state as object != buffer
      && bufferLen == |message| % BLOCK && buffer[..bufferLen] == Tail(message)
      && StateValue() == HashOf(message)
    }

    /** Only updates count towards the length. */
    ghost predicate Counting()
      reads this`bitLength, this`message
    {
      bitLength == 8 * |message| % TWO64
    }

    constructor ()
      ensures Valid() && Counting() && fresh(state) && fresh(buffer) && message == []
    {
      state := new Word[8][Word(0x6a09e667), Word(0xbb67ae85), Word(0x3c6ef372), Word(0xa54ff53a),
                           Word(0x510e527f), Word(0x9b05688c), Word(0x1f83d9ab), Word(0x5be0cd19)];
      bitLength := 0;
      buffer := new Byte[64](i => 0);
      bufferLen := 0;
      message := [];
    }

    method Schedule() returns (w: array<Word>)
      requires buffer.Length == BLOCK
      ensures fresh(w) && w.Length == 64 && forall t :: 0 <= t < 64 ==> w[t] == W(buffer[..], t)
    {
      hide W, WordOf, SmallSigma0, SmallSigma1, Plus;
      w := new Word[64];
      ghost var block := buffer[..];
      var i := 0;
      while i < 16
        invariant 0 <= i <= 16 && forall t :: 0 <= t < i ==> w[t] == W(block, t)
      {
        ScheduleStart(block, i);
        w[i] := WordOf(buffer[i * 4], buffer[i * 4 + 1], buffer[i * 4 + 2], buffer[i * 4 + 3]);
        i := i + 1;
      }
      while i < 64
        invariant 16 <= i <= 64 && forall t :: 0 <= t < i ==> w[t] == W(block, t)
      {
        var s0 := SmallSigma0(w[i - 15]);
        var s1 := SmallSigma1(w[i - 2]);
        ScheduleStep(block, i);
        w[i] := Plus(Plus(Plus(w[i - 16], s0), w[i - 7]), s1);
        i := i + 1;
      }
    }

    /** The 64 rounds on copies of the hash words. */
    method RunRounds(start: State, w: array<Word>, ghost block: seq<Byte>) returns (end: State)
      requires IsBlock(block) && w.Length == 64 && forall t :: 0 <= t < 64 ==> w[t] == W(block, t)
      ensures end == Rounds(start, block, 64)
    {
      hide W, BigSigma0, BigSigma1, Ch, Maj, Plus;
      var a, b, c, d := start.a, start.b, start.c, start.d;
      var e, f, g, h := start.e, start.f, start.g, start.h;
      var i := 0;
      while i < 64
        invariant 0 <= i <= 64
        invariant State(a, b, c, d, e, f, g, h) == Rounds(start, block, i)
      {
        var s1 := BigSigma1(e);
        var ch := Ch(e, f, g);
        var temp1 := Plus(Plus(Plus(Plus(h, s1), ch), K[i]), w[i]);
        var s0 := BigSigma0(a);
        var maj := Maj(a, b, c);
        var temp2 := Plus(s0, maj);
        h := g;
        g := f;
        f := e;
        e := Plus(d, temp1);
        d := c;
        c := b;
        b := a;
        a := Plus(temp1, temp2);
        i := i + 1;
      }
      end := State(a, b, c, d, e, f, g, h);
    }

    method ProcessBlock()
      requires state.Length == 8 && buffer.Length == BLOCK
      modifies state
      ensures StateValue() == Compressed(old(StateValue()), buffer[..])
    {
      hide Rounds, Plus, W;
      var w := Schedule();
      var end := RunRounds(State(state[0], state[1], state[2], state[3], state[4], state[5], state[6], state[7]), w, buffer[..]);
      state[0] := Plus(state[0], end.a);
      state[1] := Plus(state[1], end.b);
      state[2] := Plus(state[2], end.c);
      state[3] := Plus(state[3], end.d);
      state[4] := Plus(state[4], end.e);
      state[5] := Plus(state[5], end.f);
      state[6] := Plus(state[6], end.g);
      state[7] := Plus(state[7], end.h);
    }

    /** Copies bytes that fit behind those in the buffer. */
    method Fill(chunk: seq<Byte>)
      requires buffer.Length == BLOCK && bufferLen + |chunk| <= BLOCK
      modifies this`bufferLen, buffer
      ensures bufferLen == old(bufferLen) + |chunk| && buffer[..bufferLen] == old(buffer[..bufferLen]) + chunk
    {
      ghost var front := buffer[..bufferLen];
      forall k | 0 <= k < |chunk| {
        buffer[bufferLen + k] := chunk[k];
      }
      bufferLen := bufferLen + |chunk|;
      assert buffer[..bufferLen] == front + chunk;
    }

    method AbsorbChunk(chunk: seq<Byte>)
      requires Valid() && bufferLen + |chunk| <= BLOCK
      modifies this, state, buffer
      ensures Valid() && state == old(state) && buffer == old(buffer) && bitLength == old(bitLength)
      ensures message == old(message) + chunk
    {
      hide Compressed, HashOf, Tail;
      Fill(chunk);
      assert StateValue() == HashOf(message);
      if bufferLen == BLOCK {
        BlockCompletes(message, chunk);
        assert buffer[..] == buffer[..bufferLen];
        ProcessBlock();
        bufferLen := 0;
      } else {
        TailGrows(message, chunk);
      }
      message := message + chunk;
    }

    /** Hashes the data block by block; the bit length, which padding must not change, stays as it is. */
    method Absorb(data: seq<Byte>)
      requires Valid()
      modifies this, state, buffer
      ensures Valid() && state == old(state) && buffer == old(buffer) && bitLength == old(bitLength)
      ensures message == old(message) + data
    {
      hide HashOf, Tail, StateValue;
      var pos := 0;
      assert data[..0] == [];
      while pos < |data|
        invariant 0 <= pos <= |data|
        invariant Valid() && state == old(state) && buffer == old(buffer) && bitLength == old(bitLength)
        invariant message == old(message) + data[..pos]
      {
        var take := Min(|data| - pos, BLOCK - bufferLen);
        assert data[..pos + take] == data[..pos] + data[pos..pos + take];
        AbsorbChunk(data[pos..pos + take]);
        pos := pos + take;
      }
      assert data[..pos] == data;
    }

    method Update(data: seq<Byte>)
      requires Valid() && Counting()
      modifies this, state, buffer
      ensures Valid() && Counting() && state == old(state) && buffer == old(buffer)
      ensures message == old(message) + data
    {
      hide HashOf, Tail, StateValue;
      LengthGrows(|message|, |data|);
      bitLength := (bitLength + |data| * 8) % TWO64;
      Absorb(data);
    }

    /** Pads to eight bytes short of a block; at most one extra block is needed. */
    method Pad()
      requires Valid()
      modifies this, state, buffer
      ensures Valid() && state == old(state) && buffer == old(buffer) && bitLength == old(bitLength)
      ensures message == old(message) + [0x80] + Zeros(ZeroCount(|old(message)|))
      ensures bufferLen == BLOCK - 8
    {
      hide HashOf, Tail, StateValue;
      ghost var start := message + [0x80];
      ghost var needed := ZeroCount(|message|);
      ghost var added := 0;
      Absorb([0x80]);
      assert start + Zeros(0) == start;
      while bufferLen != 56
        invariant Valid() && state == old(state) && buffer == old(buffer) && bitLength == old(bitLength)
        invariant added <= needed && message == start + Zeros(added)
        decreases needed - added
      {
        PaddingEnds(|start| - 1, added);
        assert start + Zeros(added) + [0] == start + Zeros(added + 1);
        Absorb([0]);
        added := added + 1;
      }
      PaddingEnds(|start| - 1, added);
    }

    method Finish() returns (digest: seq<Byte>)
      requires Valid() && Counting()
      modifies this, state, buffer
      ensures digest == MessageDigest(old(message))
    {
      hide HashOf, LengthByte, ZeroCount, BytesOf, Tail;
      ghost var m := message;
      var totalBits := bitLength;
      Pad();
      var lenBytes: seq<Byte> := [];
      var i := 0;
      while i < 8
        invariant 0 <= i <= 8 && lenBytes == LengthBytes(totalBits)[..i]
      {
        lenBytes := lenBytes + [LengthByte(totalBits, i)];
        i := i + 1;
      }
      assert lenBytes == LengthBytes(totalBits);
      Absorb(lenBytes);
      assert message == Padded(m);
      digest := DigestBytes();
    }

    method DigestBytes() returns (digest: seq<Byte>)
      requires state.Length == 8
      ensures digest == DigestOf(StateValue())
    {
      hide BytesOf;
      digest := BytesOf(state[0]);
      digest := digest + BytesOf(state[1]);
      digest := digest + BytesOf(state[2]);
      digest := digest + BytesOf(state[3]);
      digest := digest + BytesOf(state[4]);
      digest := digest + BytesOf(state[5]);
      digest := digest + BytesOf(state[6]);
      digest := digest + BytesOf(state[7]);
    }
  }

  lemma LengthGrows(a: nat, b: nat)
    ensures (8 * a % TWO64 + b * 8) % TWO64 == 8 * (a + b) % TWO64
  {
  }

  /** A count of zero bytes that is not too large leaves eight bytes free only if it is the least one. */
  lemma PaddingEnds(length: nat, added: nat)
    requires added <= ZeroCount(length)
    ensures (length + 1 + added) % BLOCK == BLOCK - 8 <==> added == ZeroCount(length)
  {
    var more := ZeroCount(length) - added;
    assert length + 1 + ZeroCount(length) == (length + 1 + added) + more;
    SameRemainder(length + 1 + added, more);
  }

  lemma SameRemainder(a: nat, more: nat)
    requires more < BLOCK
    ensures (a + more) % BLOCK == a % BLOCK <==> more == 0
  {
  }

  ghost function Joined(chunks: seq<seq<Byte>>): seq<Byte> {
    if chunks == [] then [] else Joined(chunks[..|chunks| - 1]) + chunks[|chunks| - 1]
  }

  lemma NothingJoined(chunks: seq<seq<Byte>>)
    ensures Joined(chunks[..0]) == []
  {
  }

  lemma JoinedSnoc(chunks: seq<seq<Byte>>, k: nat)
    requires k < |chunks|
    ensures Joined(chunks[..k + 1]) == Joined(chunks[..k]) + chunks[k]
  {
    assert chunks[..k + 1][..k] == chunks[..k];
  }

  /** However a stream is cut into chunks, its digest is that of the whole. */
  method DigestOfChunks(chunks: seq<seq<Byte>>) returns (digest: seq<Byte>)
    ensures digest == MessageDigest(Joined(chunks))
  {
    hide *;
    var hasher := new Hasher();
    NothingJoined(chunks);
    for k := 0 to |chunks|
      invariant hasher.Valid() && hasher.Counting()
      invariant fresh(hasher) && fresh(hasher.state) && fresh(hasher.buffer)
      invariant hasher.message == Joined(chunks[..k])
    {
      JoinedSnoc(chunks, k);
      hasher.Update(chunks[k]);
    }
    assert chunks[..|chunks|] == chunks;
    digest := hasher.Finish();
  }

  // ---- Padding tells messages apart ----

  /** Padding fills whole blocks, with less than a block of zero bytes. */
  lemma PaddingFillsBlocks(message: seq<Byte>)
    ensures |Padded(message)| % BLOCK == 0 && |message| + 9 <= |Padded(message)| < |message| + 9 + BLOCK
  {
    hide Zeros, LengthBytes;
    var n := |message| + 1 + ZeroCount(|message|);
    assert |Padded(message)| == n + 8;
    hide ZeroCount;
  }

  lemma {:induction false} WeightDigits(a: nat, b: nat, n: nat)
    requires n <= 8 && a < Weight(n) && b < Weight(n)
    requires forall i :: 0 <= i < n ==> a / Weight(i) % 0x100 == b / Weight(i) % 0x100
    ensures a == b
  {
    if n > 0 {
      forall i | 0 <= i < n - 1 ensures a / 0x100 / Weight(i) % 0x100 == b / 0x100 / Weight(i) % 0x100 {
        assert a / Weight(i + 1) % 0x100 == b / Weight(i + 1) % 0x100;
        DivideTwice(a, Weight(i));
        DivideTwice(b, Weight(i));
      }
      WeightDigits(a / 0x100, b / 0x100, n - 1);
      assert a / Weight(0) % 0x100 == b / Weight(0) % 0x100;
    }
  }

  lemma DivideTwice(a: nat, w: nat)
    requires w > 0
    ensures a / 0x100 / w == a / (0x100 * w)
  {
    var q, r := a / 0x100, a % 0x100;
    var k, m := q / w, q % w;
    assert a == 0x100 * (w * k + m) + r;
    assert a == (0x100 * w) * k + (0x100 * m + r);
    assert 0 <= 0x100 * m + r < 0x100 * w;
    QuotientIs(a, 0x100 * w, k, 0x100 * m + r);
  }

  lemma QuotientIs(a: nat, d: nat, k: nat, r: nat)
    requires d > 0 && a == d * k + r && r < d
    ensures a / d == k
  {
    var q, s := a / d, a % d;
    assert a == d * q + s;
    if q > k {
      assert d * q >= d * (k + 1) by { Grows(d, k + 1, q); }
    } else if q < k {
      assert d * k >= d * (q + 1) by { Grows(d, q + 1, k); }
    }
  }

  lemma Grows(d: nat, x: nat, y: nat)
    requires x <= y
    ensures d * x <= d * y
  {
    assert d * y == d * x + d * (y - x);
  }

  lemma LastBytes(a: seq<Byte>)
    requires 8 * |a| < TWO64
    ensures var p := Padded(a); p[|p| - 8..] == LengthBytes(8 * |a|) && |a| <= |p| && p[..|a|] == a
  {
    hide LengthBytes, ZeroCount, Zeros;
  }

  /** Messages short of 2^61 bytes are told apart by their padded forms. */
  lemma PaddingIsInjective(a: seq<Byte>, b: seq<Byte>)
    requires 8 * |a| < TWO64 && 8 * |b| < TWO64 && Padded(a) == Padded(b)
    ensures a == b
  {
    hide LengthBytes, Padded;
    LastBytes(a);
    LastBytes(b);
    SameLength(8 * |a|, 8 * |b|);
  }

  lemma SameLength(a: nat, b: nat)
    requires a < TWO64 && b < TWO64 && LengthBytes(a) == LengthBytes(b)
    ensures a == b
  {
    Weights();
    forall i | 0 <= i < 8 ensures a / Weight(i) % 0x100 == b / Weight(i) % 0x100 {
      assert LengthBytes(a)[7 - i] == LengthBytes(b)[7 - i];
    }
    hide Weight;
    WeightDigits(a, b, 8);
  }

  lemma Weights()
    ensures Weight(8) == TWO64
  {
    assert Weight(2) == 0x1_0000;
    assert Weight(4) == 0x1_0000_0000;
    assert Weight(6) == 0x1_0000_0000_0000;
  }
}
