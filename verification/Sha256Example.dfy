/** The example that is published with FIPS 180-4: the digest of "abc", one block. The message schedule is computed in
    rows of eight words and the rounds one by one, each of them from the two words that it makes; every one of them is
    checked against the functions of the standard on machine words. */
module Sha256Example {
  import opened Utf
  import opened Sha256

  const ABC: seq<Byte> := [0x61, 0x62, 0x63]

  /** The padded message: one block. */
  const BLOCK_OF_ABC: seq<Byte> := ABC + [0x80] + Zeros(52) + [0, 0, 0, 0, 0, 0, 0, 24]

  lemma AbcIsPadded()
    ensures Padded(ABC) == BLOCK_OF_ABC && IsBlock(BLOCK_OF_ABC)
  {
    hide LengthByte;
    LengthOf24();
    assert LengthBytes(24) == [0, 0, 0, 0, 0, 0, 0, 24];
    hide LengthBytes;
    assert ZeroCount(3) == 52;
    hide Zeros;
  }

  lemma LengthOf24()
    ensures forall i :: 0 <= i < 8 ==> LengthByte(24, i) == if i == 7 then 24 else 0
  {
    forall i | 0 <= i < 8 ensures LengthByte(24, i) == if i == 7 then 24 else 0 {
      ByteOf24(7 - i);
    }
  }

  lemma {:induction false} AtLeast256(n: nat)
    requires n > 0
    ensures Weight(n) >= 0x100
  {
    if n > 1 { AtLeast256(n - 1); }
  }

  lemma {:induction false} ByteOf24(n: nat)
    ensures 24 / Weight(n) % 0x100 == if n == 0 then 24 else 0
  {
    if n == 0 {
      assert Weight(0) == 1;
    } else {
      AtLeast256(n);
      hide Weight;
      QuotientIs(24, Weight(n), 0, 24);
    }
  }

  // ---- The message schedule ----

  ghost predicate Row(t: nat, w0: bv32, w1: bv32, w2: bv32, w3: bv32, w4: bv32, w5: bv32, w6: bv32, w7: bv32) {
    && IsBlock(BLOCK_OF_ABC)
    && W(BLOCK_OF_ABC, t) == Word(w0) && W(BLOCK_OF_ABC, t + 1) == Word(w1) && W(BLOCK_OF_ABC, t + 2) == Word(w2)
    && W(BLOCK_OF_ABC, t + 3) == Word(w3) && W(BLOCK_OF_ABC, t + 4) == Word(w4) && W(BLOCK_OF_ABC, t + 5) == Word(w5)
    && W(BLOCK_OF_ABC, t + 6) == Word(w6) && W(BLOCK_OF_ABC, t + 7) == Word(w7)
  }

  lemma Row0()
    ensures Row(0, 0x61626380, 0x00000000, 0x00000000, 0x00000000, 0x00000000, 0x00000000, 0x00000000, 0x00000000)
  {
    AbcIsPadded();
    assert forall i :: 0 <= i < 64 ==>
      BLOCK_OF_ABC[i] == if i == 0 then 0x61 else if i == 1 then 0x62 else if i == 2 then 0x63
                         else if i == 3 then 0x80 else if i == 63 then 24 else 0;
    assert WordOf(0x61, 0x62, 0x63, 0x80) == Word(0x61626380) && WordOf(0, 0, 0, 24) == Word(24) && WordOf(0, 0, 0, 0) == Word(0);
    hide WordOf;
  }

  lemma Row8()
    ensures Row(8, 0x00000000, 0x00000000, 0x00000000, 0x00000000, 0x00000000, 0x00000000, 0x00000000, 0x00000018)
  {
    AbcIsPadded();
    assert forall i :: 0 <= i < 64 ==>
      BLOCK_OF_ABC[i] == if i == 0 then 0x61 else if i == 1 then 0x62 else if i == 2 then 0x63
                         else if i == 3 then 0x80 else if i == 63 then 24 else 0;
    assert WordOf(0x61, 0x62, 0x63, 0x80) == Word(0x61626380) && WordOf(0, 0, 0, 24) == Word(24) && WordOf(0, 0, 0, 0) == Word(0);
    hide WordOf;
  }

  lemma Row16()
    ensures Row(16, 0x61626380, 0x000f0000, 0x7da86405, 0x600003c6, 0x3e9d7b78, 0x0183fc00, 0x12dcbfdb, 0xe2e2c38e)
  {
    hide W;
    Row0();
    Row8();
    ScheduleStep(BLOCK_OF_ABC, 16);
    ScheduleStep(BLOCK_OF_ABC, 17);
    ScheduleStep(BLOCK_OF_ABC, 18);
    ScheduleStep(BLOCK_OF_ABC, 19);
    ScheduleStep(BLOCK_OF_ABC, 20);
    ScheduleStep(BLOCK_OF_ABC, 21);
    ScheduleStep(BLOCK_OF_ABC, 22);
    ScheduleStep(BLOCK_OF_ABC, 23);
  }

  lemma Row24()
    ensures Row(24, 0xc8215c1a, 0xb73679a2, 0xe5bc3909, 0x32663c5b, 0x9d209d67, 0xec8726cb, 0x702138a4, 0xd3b7973b)
  {
    hide W;
    Row8();
    Row16();
    ScheduleStep(BLOCK_OF_ABC, 24);
    ScheduleStep(BLOCK_OF_ABC, 25);
    ScheduleStep(BLOCK_OF_ABC, 26);
    ScheduleStep(BLOCK_OF_ABC, 27);
    ScheduleStep(BLOCK_OF_ABC, 28);
    ScheduleStep(BLOCK_OF_ABC, 29);
    ScheduleStep(BLOCK_OF_ABC, 30);
    ScheduleStep(BLOCK_OF_ABC, 31);
  }

  lemma Row32()
    ensures Row(32, 0x93f5997f, 0x3b68ba73, 0xaff4ffc1, 0xf10a5c62, 0x0a8b3996, 0x72af830a, 0x9409e33e, 0x24641522)
  {
    hide W;
    Row16();
    Row24();
    ScheduleStep(BLOCK_OF_ABC, 32);
    ScheduleStep(BLOCK_OF_ABC, 33);
    ScheduleStep(BLOCK_OF_ABC, 34);
    ScheduleStep(BLOCK_OF_ABC, 35);
    ScheduleStep(BLOCK_OF_ABC, 36);
    ScheduleStep(BLOCK_OF_ABC, 37);
    ScheduleStep(BLOCK_OF_ABC, 38);
    ScheduleStep(BLOCK_OF_ABC, 39);
  }

  lemma Row40()
    ensures Row(40, 0x9f47bf94, 0xf0a64f5a, 0x3e246a79, 0x27333ba3, 0x0c4763f2, 0x840abf27, 0x7a290d5d, 0x065c43da)
  {
    hide W;
    Row24();
    Row32();
    ScheduleStep(BLOCK_OF_ABC, 40);
    ScheduleStep(BLOCK_OF_ABC, 41);
    ScheduleStep(BLOCK_OF_ABC, 42);
    ScheduleStep(BLOCK_OF_ABC, 43);
    ScheduleStep(BLOCK_OF_ABC, 44);
    ScheduleStep(BLOCK_OF_ABC, 45);
    ScheduleStep(BLOCK_OF_ABC, 46);
    ScheduleStep(BLOCK_OF_ABC, 47);
  }

  lemma Row48()
    ensures Row(48, 0xfb3e89cb, 0xcc7617db, 0xb9e66c34, 0xa9993667, 0x84badedd, 0xc21462bc, 0x1487472c, 0xb20f7a99)
  {
    hide W;
    Row32();
    Row40();
    ScheduleStep(BLOCK_OF_ABC, 48);
    ScheduleStep(BLOCK_OF_ABC, 49);
    ScheduleStep(BLOCK_OF_ABC, 50);
    ScheduleStep(BLOCK_OF_ABC, 51);
    ScheduleStep(BLOCK_OF_ABC, 52);
    ScheduleStep(BLOCK_OF_ABC, 53);
    ScheduleStep(BLOCK_OF_ABC, 54);
    ScheduleStep(BLOCK_OF_ABC, 55);
  }

  lemma Row56()
    ensures Row(56, 0xef57b9cd, 0xebe6b238, 0x9fe3095e, 0x78bc8d4b, 0xa43fcf15, 0x668b2ff8, 0xeeaba2cc, 0x12b1edeb)
  {
    hide W;
    Row40();
    Row48();
    ScheduleStep(BLOCK_OF_ABC, 56);
    ScheduleStep(BLOCK_OF_ABC, 57);
    ScheduleStep(BLOCK_OF_ABC, 58);
    ScheduleStep(BLOCK_OF_ABC, 59);
    ScheduleStep(BLOCK_OF_ABC, 60);
    ScheduleStep(BLOCK_OF_ABC, 61);
    ScheduleStep(BLOCK_OF_ABC, 62);
    ScheduleStep(BLOCK_OF_ABC, 63);
  }

  // ---- The rounds ----

  function Constant(t: nat): Word
    requires t < 64
  {
    K[t]
  }

  ghost predicate ConstantRow(t: nat, k0: bv32, k1: bv32, k2: bv32, k3: bv32, k4: bv32, k5: bv32, k6: bv32, k7: bv32)
    requires t + 8 <= 64
  {
    && Constant(t) == Word(k0) && Constant(t + 1) == Word(k1) && Constant(t + 2) == Word(k2) && Constant(t + 3) == Word(k3)
    && Constant(t + 4) == Word(k4) && Constant(t + 5) == Word(k5) && Constant(t + 6) == Word(k6) && Constant(t + 7) == Word(k7)
  }

  lemma Constants0()
    ensures ConstantRow(0, 0x428a2f98, 0x71374491, 0xb5c0fbcf, 0xe9b5dba5, 0x3956c25b, 0x59f111f1, 0x923f82a4, 0xab1c5ed5)
  {
  }

  lemma Constants8()
    ensures ConstantRow(8, 0xd807aa98, 0x12835b01, 0x243185be, 0x550c7dc3, 0x72be5d74, 0x80deb1fe, 0x9bdc06a7, 0xc19bf174)
  {
  }

  lemma Constants16()
    ensures ConstantRow(16, 0xe49b69c1, 0xefbe4786, 0x0fc19dc6, 0x240ca1cc, 0x2de92c6f, 0x4a7484aa, 0x5cb0a9dc, 0x76f988da)
  {
  }

  lemma Constants24()
    ensures ConstantRow(24, 0x983e5152, 0xa831c66d, 0xb00327c8, 0xbf597fc7, 0xc6e00bf3, 0xd5a79147, 0x06ca6351, 0x14292967)
  {
  }

  lemma Constants32()
    ensures ConstantRow(32, 0x27b70a85, 0x2e1b2138, 0x4d2c6dfc, 0x53380d13, 0x650a7354, 0x766a0abb, 0x81c2c92e, 0x92722c85)
  {
  }

  lemma Constants40()
    ensures ConstantRow(40, 0xa2bfe8a1, 0xa81a664b, 0xc24b8b70, 0xc76c51a3, 0xd192e819, 0xd6990624, 0xf40e3585, 0x106aa070)
  {
  }

  lemma Constants48()
    ensures ConstantRow(48, 0x19a4c116, 0x1e376c08, 0x2748774c, 0x34b0bcb5, 0x391c0cb3, 0x4ed8aa4a, 0x5b9cca4f, 0x682e6ff3)
  {
  }

  lemma Constants56()
    ensures ConstantRow(56, 0x748f82ee, 0x78a5636f, 0x84c87814, 0x8cc70208, 0x90befffa, 0xa4506ceb, 0xbef9a3f7, 0xc67178f2)
  {
  }

  /** One more round, from its two new words. */
  lemma Step(t: nat, s: State, k: bv32, w: bv32, a: bv32, e: bv32) returns (n: State)
    requires IsBlock(BLOCK_OF_ABC) && t < 64 && s == Rounds(INITIAL, BLOCK_OF_ABC, t) && W(BLOCK_OF_ABC, t) == Word(w)
    requires Constant(t) == Word(k) && Round(s, Word(k), Word(w)) == State(Word(a), s.a, s.b, s.c, Word(e), s.e, s.f, s.g)
    ensures n == State(Word(a), s.a, s.b, s.c, Word(e), s.e, s.f, s.g) == Rounds(INITIAL, BLOCK_OF_ABC, t + 1)
  {
    hide Round, W;
    n := State(Word(a), s.a, s.b, s.c, Word(e), s.e, s.f, s.g);
  }

  lemma State8()
    ensures IsBlock(BLOCK_OF_ABC)
    ensures Rounds(INITIAL, BLOCK_OF_ABC, 8) ==
      State(Word(0x85a07b5f), Word(0xe5030380), Word(0x2b4209f5), Word(0x04409a6a),
            Word(0x0c657a79), Word(0x9b27a401), Word(0x714260ad), Word(0x43ada245))
  {
    hide W, Rounds, Constant;
    Row0();
    Constants0();
    NoRounds();
    var s := INITIAL;
    s := Step(0, s, 0x428a2f98, 0x61626380, 0x5d6aebcd, 0xfa2a4622);
    s := Step(1, s, 0x71374491, 0x00000000, 0x5a6ad9ad, 0x78ce7989);
    s := Step(2, s, 0xb5c0fbcf, 0x00000000, 0xc8c347a7, 0xf92939eb);
    s := Step(3, s, 0xe9b5dba5, 0x00000000, 0xd550f666, 0x24e00850);
    s := Step(4, s, 0x3956c25b, 0x00000000, 0x04409a6a, 0x43ada245);
    s := Step(5, s, 0x59f111f1, 0x00000000, 0x2b4209f5, 0x714260ad);
    s := Step(6, s, 0x923f82a4, 0x00000000, 0xe5030380, 0x9b27a401);
    s := Step(7, s, 0xab1c5ed5, 0x00000000, 0x85a07b5f, 0x0c657a79);
  }

  lemma State16()
    ensures IsBlock(BLOCK_OF_ABC)
    ensures Rounds(INITIAL, BLOCK_OF_ABC, 16) ==
      State(Word(0xb0fa238e), Word(0xc0645fde), Word(0xd932eb16), Word(0x87912990),
            Word(0x07590dcd), Word(0x0b92f20c), Word(0x745a48de), Word(0x1e578218))
  {
    hide W, Rounds, Constant;
    Row8();
    Constants8();
    State8();
    var s := State(Word(0x85a07b5f), Word(0xe5030380), Word(0x2b4209f5), Word(0x04409a6a), Word(0x0c657a79), Word(0x9b27a401), Word(0x714260ad), Word(0x43ada245));
    s := Step(8, s, 0xd807aa98, 0x00000000, 0x8e04ecb9, 0x32ca2d8c);
    s := Step(9, s, 0x12835b01, 0x00000000, 0x8c87346b, 0x1cc92596);
    s := Step(10, s, 0x243185be, 0x00000000, 0x4798a3f4, 0x436b23e8);
    s := Step(11, s, 0x550c7dc3, 0x00000000, 0xf71fc5a9, 0x816fd6e9);
    s := Step(12, s, 0x72be5d74, 0x00000000, 0x87912990, 0x1e578218);
    s := Step(13, s, 0x80deb1fe, 0x00000000, 0xd932eb16, 0x745a48de);
    s := Step(14, s, 0x9bdc06a7, 0x00000000, 0xc0645fde, 0x0b92f20c);
    s := Step(15, s, 0xc19bf174, 0x00000018, 0xb0fa238e, 0x07590dcd);
  }

  lemma State24()
    ensures IsBlock(BLOCK_OF_ABC)
    ensures Rounds(INITIAL, BLOCK_OF_ABC, 24) ==
      State(Word(0xc5d53d8d), Word(0xa7a3623f), Word(0xc2606d6d), Word(0x9dc68b63),
            Word(0xaa47c347), Word(0x49f5114a), Word(0xe1257970), Word(0x8ada8930))
  {
    hide W, Rounds, Constant;
    Row16();
    Constants16();
    State16();
    var s := State(Word(0xb0fa238e), Word(0xc0645fde), Word(0xd932eb16), Word(0x87912990), Word(0x07590dcd), Word(0x0b92f20c), Word(0x745a48de), Word(0x1e578218));
    s := Step(16, s, 0xe49b69c1, 0x61626380, 0x21da9a9b, 0x8034229c);
    s := Step(17, s, 0xefbe4786, 0x000f0000, 0xc2fbd9d1, 0x846ee454);
    s := Step(18, s, 0x0fc19dc6, 0x7da86405, 0xfe777bbf, 0xcc899961);
    s := Step(19, s, 0x240ca1cc, 0x600003c6, 0xe1f20c33, 0xb0638179);
    s := Step(20, s, 0x2de92c6f, 0x3e9d7b78, 0x9dc68b63, 0x8ada8930);
    s := Step(21, s, 0x4a7484aa, 0x0183fc00, 0xc2606d6d, 0xe1257970);
    s := Step(22, s, 0x5cb0a9dc, 0x12dcbfdb, 0xa7a3623f, 0x49f5114a);
    s := Step(23, s, 0x76f988da, 0xe2e2c38e, 0xc5d53d8d, 0xaa47c347);
  }

  lemma State32()
    ensures IsBlock(BLOCK_OF_ABC)
    ensures Rounds(INITIAL, BLOCK_OF_ABC, 32) ==
      State(Word(0x73b33bf5), Word(0xea992a22), Word(0xa0060b30), Word(0x363482c9),
            Word(0xba591112), Word(0x0109ab3a), Word(0xade79437), Word(0x6112a3b7))
  {
    hide W, Rounds, Constant;
    Row24();
    Constants24();
    State24();
    var s := State(Word(0xc5d53d8d), Word(0xa7a3623f), Word(0xc2606d6d), Word(0x9dc68b63), Word(0xaa47c347), Word(0x49f5114a), Word(0xe1257970), Word(0x8ada8930));
    s := Step(24, s, 0x983e5152, 0xc8215c1a, 0x1c2c2838, 0x2823ef91);
    s := Step(25, s, 0xa831c66d, 0xb73679a2, 0xcde8037d, 0x14383d8e);
    s := Step(26, s, 0xb00327c8, 0xe5bc3909, 0xb62ec4bc, 0xc74c6516);
    s := Step(27, s, 0xbf597fc7, 0x32663c5b, 0x77d37528, 0xedffbff8);
    s := Step(28, s, 0xc6e00bf3, 0x9d209d67, 0x363482c9, 0x6112a3b7);
    s := Step(29, s, 0xd5a79147, 0xec8726cb, 0xa0060b30, 0xade79437);
    s := Step(30, s, 0x06ca6351, 0x702138a4, 0xea992a22, 0x0109ab3a);
    s := Step(31, s, 0x14292967, 0xd3b7973b, 0x73b33bf5, 0xba591112);
  }

  lemma State40()
    ensures IsBlock(BLOCK_OF_ABC)
    ensures Rounds(INITIAL, BLOCK_OF_ABC, 40) ==
      State(Word(0x79ea687a), Word(0x6dc57a8a), Word(0x34df1604), Word(0x41a65cb1),
            Word(0x1efbc0a0), Word(0xf0781bc8), Word(0xa507a53d), Word(0x0772a26b))
  {
    hide W, Rounds, Constant;
    Row32();
    Constants32();
    State32();
    var s := State(Word(0x73b33bf5), Word(0xea992a22), Word(0xa0060b30), Word(0x363482c9), Word(0xba591112), Word(0x0109ab3a), Word(0xade79437), Word(0x6112a3b7));
    s := Step(32, s, 0x27b70a85, 0x93f5997f, 0x98e12507, 0x9cd9f5f6);
    s := Step(33, s, 0x2e1b2138, 0x3b68ba73, 0xfe604df5, 0x59249dd3);
    s := Step(34, s, 0x4d2c6dfc, 0xaff4ffc1, 0xa9a7738c, 0x085f3833);
    s := Step(35, s, 0x53380d13, 0xf10a5c62, 0x65a0cfe4, 0xf4b002d6);
    s := Step(36, s, 0x650a7354, 0x0a8b3996, 0x41a65cb1, 0x0772a26b);
    s := Step(37, s, 0x766a0abb, 0x72af830a, 0x34df1604, 0xa507a53d);
    s := Step(38, s, 0x81c2c92e, 0x9409e33e, 0x6dc57a8a, 0xf0781bc8);
    s := Step(39, s, 0x92722c85, 0x24641522, 0x79ea687a, 0x1efbc0a0);
  }

  lemma State48()
    ensures IsBlock(BLOCK_OF_ABC)
    ensures Rounds(INITIAL, BLOCK_OF_ABC, 48) ==
      State(Word(0x4172328d), Word(0xa14c14b0), Word(0x72ab4b91), Word(0x26628815),
            Word(0xfecf0bc6), Word(0xd57b94a9), Word(0xb7755da1), Word(0xa80f11f0))
  {
    hide W, Rounds, Constant;
    Row40();
    Constants40();
    State40();
    var s := State(Word(0x79ea687a), Word(0x6dc57a8a), Word(0x34df1604), Word(0x41a65cb1), Word(0x1efbc0a0), Word(0xf0781bc8), Word(0xa507a53d), Word(0x0772a26b));
    s := Step(40, s, 0xa2bfe8a1, 0x9f47bf94, 0xd6670766, 0x26352d63);
    s := Step(41, s, 0xa81a664b, 0xf0a64f5a, 0xdf46652f, 0x838b2711);
    s := Step(42, s, 0xc24b8b70, 0x3e246a79, 0x17aa0dfe, 0xdecd4715);
    s := Step(43, s, 0xc76c51a3, 0x27333ba3, 0x9d4baf93, 0xfda24c2e);
    s := Step(44, s, 0xd192e819, 0x0c4763f2, 0x26628815, 0xa80f11f0);
    s := Step(45, s, 0xd6990624, 0x840abf27, 0x72ab4b91, 0xb7755da1);
    s := Step(46, s, 0xf40e3585, 0x7a290d5d, 0xa14c14b0, 0xd57b94a9);
    s := Step(47, s, 0x106aa070, 0x065c43da, 0x4172328d, 0xfecf0bc6);
  }

  lemma State56()
    ensures IsBlock(BLOCK_OF_ABC)
    ensures Rounds(INITIAL, BLOCK_OF_ABC, 56) ==
      State(Word(0x38cc9913), Word(0x3ec45cdb), Word(0xf5702fdb), Word(0x101fd28f),
            Word(0x54cb266b), Word(0xe50e1b4f), Word(0x9f4787c3), Word(0x529e7d00))
  {
    hide W, Rounds, Constant;
    Row48();
    Constants48();
    State48();
    var s := State(Word(0x4172328d), Word(0xa14c14b0), Word(0x72ab4b91), Word(0x26628815), Word(0xfecf0bc6), Word(0xd57b94a9), Word(0xb7755da1), Word(0xa80f11f0));
    s := Step(48, s, 0x19a4c116, 0xfb3e89cb, 0x05757ceb, 0xbd714038);
    s := Step(49, s, 0x1e376c08, 0xcc7617db, 0xf11bfaa8, 0x6e5c390c);
    s := Step(50, s, 0x2748774c, 0xb9e66c34, 0x7a0508a1, 0x52f1ccf7);
    s := Step(51, s, 0x34b0bcb5, 0xa9993667, 0x886e7a22, 0x49231c1e);
    s := Step(52, s, 0x391c0cb3, 0x84badedd, 0x101fd28f, 0x529e7d00);
    s := Step(53, s, 0x4ed8aa4a, 0xc21462bc, 0xf5702fdb, 0x9f4787c3);
    s := Step(54, s, 0x5b9cca4f, 0x1487472c, 0x3ec45cdb, 0xe50e1b4f);
    s := Step(55, s, 0x682e6ff3, 0xb20f7a99, 0x38cc9913, 0x54cb266b);
  }

  lemma State64()
    ensures IsBlock(BLOCK_OF_ABC)
    ensures Rounds(INITIAL, BLOCK_OF_ABC, 64) ==
      State(Word(0x506e3058), Word(0xd39a2165), Word(0x04d24d6c), Word(0xb85e2ce9),
            Word(0x5ef50f24), Word(0xfb121210), Word(0x948d25b6), Word(0x961f4894))
  {
    hide W, Rounds, Constant;
    Row56();
    Constants56();
    State56();
    var s := State(Word(0x38cc9913), Word(0x3ec45cdb), Word(0xf5702fdb), Word(0x101fd28f), Word(0x54cb266b), Word(0xe50e1b4f), Word(0x9f4787c3), Word(0x529e7d00));
    s := Step(56, s, 0x748f82ee, 0xef57b9cd, 0xfcd1887b, 0x9b5e906c);
    s := Step(57, s, 0x78a5636f, 0xebe6b238, 0xc062d46f, 0x7e44008e);
    s := Step(58, s, 0x84c87814, 0x9fe3095e, 0xffb70472, 0x6d83bfc6);
    s := Step(59, s, 0x8cc70208, 0x78bc8d4b, 0xb6ae8fff, 0xb21bad3d);
    s := Step(60, s, 0x90befffa, 0xa43fcf15, 0xb85e2ce9, 0x961f4894);
    s := Step(61, s, 0xa4506ceb, 0x668b2ff8, 0x04d24d6c, 0x948d25b6);
    s := Step(62, s, 0xbef9a3f7, 0xeeaba2cc, 0xd39a2165, 0xfb121210);
    s := Step(63, s, 0xc67178f2, 0x12b1edeb, 0x506e3058, 0x5ef50f24);
  }

  lemma NoRounds()
    ensures IsBlock(BLOCK_OF_ABC) && Rounds(INITIAL, BLOCK_OF_ABC, 0) == INITIAL
  {
  }

  /** The hash value after the block. */
  lemma HashOfAbc()
    ensures HashOf(Padded(ABC)) == State(Word(0xba7816bf), Word(0x8f01cfea), Word(0x414140de), Word(0x5dae2223),
                                         Word(0xb00361a3), Word(0x96177a9c), Word(0xb410ff61), Word(0xf20015ad))
  {
    AbcIsPadded();
    State64();
    hide Rounds;
    FirstBlock();
  }

  lemma FirstBlock()
    requires IsBlock(BLOCK_OF_ABC)
    ensures HashOf(BLOCK_OF_ABC) == Added(INITIAL, Rounds(INITIAL, BLOCK_OF_ABC, 64))
  {
    hide Rounds, Added;
    assert BLOCK_OF_ABC[BLOCK * 0..BLOCK * 1] == BLOCK_OF_ABC;
    assert HashBlocks(BLOCK_OF_ABC, 0) == INITIAL;
  }

  lemma FirstBytes()
    ensures BytesOf(Word(0xba7816bf)) == [0xba, 0x78, 0x16, 0xbf]
    ensures BytesOf(Word(0x8f01cfea)) == [0x8f, 0x01, 0xcf, 0xea]
    ensures BytesOf(Word(0x414140de)) == [0x41, 0x41, 0x40, 0xde]
    ensures BytesOf(Word(0x5dae2223)) == [0x5d, 0xae, 0x22, 0x23]
  {
  }

  lemma LastBytes()
    ensures BytesOf(Word(0xb00361a3)) == [0xb0, 0x03, 0x61, 0xa3]
    ensures BytesOf(Word(0x96177a9c)) == [0x96, 0x17, 0x7a, 0x9c]
    ensures BytesOf(Word(0xb410ff61)) == [0xb4, 0x10, 0xff, 0x61]
    ensures BytesOf(Word(0xf20015ad)) == [0xf2, 0x00, 0x15, 0xad]
  {
  }

  /** The published digest. */
  lemma DigestOfAbc()
    ensures MessageDigest(ABC) == [
      0xba, 0x78, 0x16, 0xbf, 0x8f, 0x01, 0xcf, 0xea, 0x41, 0x41, 0x40, 0xde, 0x5d, 0xae, 0x22, 0x23,
      0xb0, 0x03, 0x61, 0xa3, 0x96, 0x17, 0x7a, 0x9c, 0xb4, 0x10, 0xff, 0x61, 0xf2, 0x00, 0x15, 0xad]
  {
    hide HashOf, Padded, BytesOf;
    HashOfAbc();
    FirstBytes();
    LastBytes();
  }
}
