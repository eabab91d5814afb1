/** The example of FIPS 197, Appendix C.1: one key, one block, and what the cipher makes of it. */
module AesExample {
  import opened Bits
  import opened Bitwise
  import opened AesField
  import opened AesTables
  import opened AesSbox
  import opened Aes

  /** A column of four bytes, and a block of four columns. */
  datatype Column = Column(a: bv8, b: bv8, c: bv8, d: bv8)

  datatype State = State(c0: Column, c1: Column, c2: Column, c3: Column)

  /** Byte k of a block, column by column. */
  function ByteOf(s: State, k: nat): (v: bv8)
    requires k < 16
  {
    Piece(if k < 4 then s.c0 else if k < 8 then s.c1 else if k < 12 then s.c2 else s.c3, k % 4)
  }

  function Piece(x: Column, j: nat): (v: bv8)
    requires j < 4
  {
    if j == 0 then x.a else if j == 1 then x.b else if j == 2 then x.c else x.d
  }

  function Bytes(s: State): (b: seq<byte>)
    ensures IsBlock(b) && forall k :: 0 <= k < 16 ==> b[k] == Value(ByteOf(s, k))
  {
    seq(16, k requires 0 <= k < 16 => Value(ByteOf(s, k)))
  }

  function Added(x: Column, y: Column): (r: Column) { Column(Plus(x.a, y.a), Plus(x.b, y.b), Plus(x.c, y.c), Plus(x.d, y.d)) }

  function AddedAll(s: State, k: State): (t: State) { State(Added(s.c0, k.c0), Added(s.c1, k.c1), Added(s.c2, k.c2), Added(s.c3, k.c3)) }

  function Boxed(a: bv8, b: bv8, c: bv8, d: bv8): (r: Column) { Column(SboxTable(a), SboxTable(b), SboxTable(c), SboxTable(d)) }

  /** SubBytes and ShiftRows: the bytes of a column come from four columns. */
  function BoxedAll(s: State): (t: State)
  {
    State(Boxed(s.c0.a, s.c1.b, s.c2.c, s.c3.d), Boxed(s.c1.a, s.c2.b, s.c3.c, s.c0.d),
          Boxed(s.c2.a, s.c3.b, s.c0.c, s.c1.d), Boxed(s.c3.a, s.c0.b, s.c1.c, s.c2.d))
  }

  /** 2 a + 3 b + c + d */
  function MixOne(a: bv8, b: bv8, c: bv8, d: bv8): (r: bv8) { Plus(Plus(Twice(a), Plus(b, Twice(b))), Plus(c, d)) }

  function Stirred(x: Column): (r: Column)
  {
    Column(MixOne(x.a, x.b, x.c, x.d), MixOne(x.b, x.c, x.d, x.a), MixOne(x.c, x.d, x.a, x.b), MixOne(x.d, x.a, x.b, x.c))
  }

  function StirredAll(s: State): (t: State) { State(Stirred(s.c0), Stirred(s.c1), Stirred(s.c2), Stirred(s.c3)) }

  function Round(s: State, k: State): (t: State) { AddedAll(StirredAll(BoxedAll(s)), k) }

  function NextKey(k: State, rcon: bv8): (n: State)
  {
    var s := Boxed(k.c3.b, k.c3.c, k.c3.d, k.c3.a);
    var c0 := Added(k.c0, s.(a := Plus(s.a, rcon)));
    var c1 := Added(k.c1, c0);
    var c2 := Added(k.c2, c1);
    State(c0, c1, c2, Added(k.c3, c2))
  }

  // ----- the steps of the model on vectors ------------------------------------------------------

  lemma {:induction false} SboxOf(v: bv8)
    ensures Sbox(Value(v)) == Value(SboxTable(v))
  {
    hide SboxTable, Value, Vector;
    VectorValue(v);
  }

  lemma {:induction false} MixOf(a: bv8, b: bv8, c: bv8, d: bv8)
    ensures Row(Value(a), Value(b), Value(c), Value(d), MIX) == Value(MixOne(a, b, c, d))
  {
    hide Xor, Xtime, Twice, Plus, Value, Poly;
    PolyOne(Value(a));
    PolyOne(Value(b));
    PolyOne(Value(c));
    PolyOne(Value(d));
    PolyOne(Xtime(Value(a)));
    PolyOne(Xtime(Value(b)));
    PolyStep(Value(a), 2);
    PolyStep(Value(b), 3);
    XorZero(Xtime(Value(a)));
    TwiceIs(a);
    TwiceIs(b);
    PlusIs(b, Twice(b));
    PlusIs(Twice(a), Plus(b, Twice(b)));
    PlusIs(c, d);
    PlusIs(Plus(Twice(a), Plus(b, Twice(b))), Plus(c, d));
  }

  lemma {:induction false} AddedByte(s: State, t: State, k: nat)
    requires k < 16
    ensures ByteOf(AddedAll(s, t), k) == Plus(ByteOf(s, k), ByteOf(t, k))
  {
    hide Plus;
  }

  lemma {:induction false} AddedIs(s: State, t: State)
    ensures Keyed(Bytes(s), Bytes(t)) == Bytes(AddedAll(s, t))
  {
    hide Value, Plus, XorB, ByteOf, AddedAll;
    forall k | 0 <= k < 16 ensures Keyed(Bytes(s), Bytes(t))[k] == Bytes(AddedAll(s, t))[k] {
      AddedByte(s, t, k);
      PlusIs(ByteOf(s, k), ByteOf(t, k));
    }
  }

  lemma {:induction false} BoxedByte(s: State, k: nat)
    requires k < 16
    ensures ByteOf(BoxedAll(s), k) == SboxTable(ByteOf(s, LeftOf(k)))
  {
    hide SboxTable;
    if k < 8 {
      if k == 0 {} else if k == 1 {} else if k == 2 {} else if k == 3 {} else if k == 4 {} else if k == 5 {} else if k == 6 {} else {}
    } else {
      if k == 8 {} else if k == 9 {} else if k == 10 {} else if k == 11 {} else if k == 12 {} else if k == 13 {} else if k == 14 {} else {}
    }
  }

  lemma {:induction false} BoxedIs(s: State)
    ensures Shifted(Substituted(Bytes(s))) == Bytes(BoxedAll(s))
  {
    hide Value, Sbox, SboxTable, ByteOf, BoxedAll, LeftOf;
    forall k | 0 <= k < 16 ensures Shifted(Substituted(Bytes(s)))[k] == Bytes(BoxedAll(s))[k] {
      BoxedByte(s, k);
      SboxOf(ByteOf(s, LeftOf(k)));
    }
  }

  lemma {:induction false} StirredByte(s: State, k: nat)
    requires k < 16
    ensures ByteOf(StirredAll(s), k) == MixOne(ByteOf(s, k), ByteOf(s, Next(k)), ByteOf(s, Next(Next(k))), ByteOf(s, Next(Next(Next(k)))))
  {
    hide Piece, Stirred, MixOne;
    StirredPiece(if k < 4 then s.c0 else if k < 8 then s.c1 else if k < 12 then s.c2 else s.c3, k % 4);
    assert Next(k) == (if k % 4 == 3 then k - 3 else k + 1);
  }

  lemma {:induction false} StirredPiece(x: Column, j: nat)
    requires j < 4
    ensures Piece(Stirred(x), j) == MixOne(Piece(x, j), Piece(x, (j + 1) % 4), Piece(x, (j + 2) % 4), Piece(x, (j + 3) % 4))
  {
    hide MixOne;
  }

  lemma {:induction false} StirredIs(s: State)
    ensures Mixed(Bytes(s), MIX) == Bytes(StirredAll(s))
  {
    hide Value, Row, MixOne, ByteOf, StirredAll, Next;
    forall k | 0 <= k < 16 ensures Mixed(Bytes(s), MIX)[k] == Bytes(StirredAll(s))[k] {
      StirredByte(s, k);
      MixOf(ByteOf(s, k), ByteOf(s, Next(k)), ByteOf(s, Next(Next(k))), ByteOf(s, Next(Next(Next(k)))));
    }
  }

  lemma {:induction false} RoundIs(s: State, k: State)
    ensures Keyed(Mixed(Shifted(Substituted(Bytes(s))), MIX), Bytes(k)) == Bytes(Round(s, k))
  {
    hide Bytes, Keyed, Mixed, Shifted, Substituted, AddedAll, StirredAll, BoxedAll;
    BoxedIs(s);
    StirredIs(BoxedAll(s));
    AddedIs(StirredAll(BoxedAll(s)), k);
  }

  // ----- the key schedule on vectors ------------------------------------------------------------

  function Word(x: Column): (w: seq<byte>)
    ensures |w| == 4
  {
    [Value(x.a), Value(x.b), Value(x.c), Value(x.d)]
  }

  /** The four words of a round key. */
  predicate HasKey(key: seq<byte>, r: nat, k: State)
    requires IsBlock(key) && r <= 10
  {
    && KeyWord(key, 4 * r) == Word(k.c0) && KeyWord(key, 4 * r + 1) == Word(k.c1)
    && KeyWord(key, 4 * r + 2) == Word(k.c2) && KeyWord(key, 4 * r + 3) == Word(k.c3)
  }

  lemma {:induction false} WordAdded(x: Column, y: Column)
    ensures XorWord(Word(x), Word(y)) == Word(Added(x, y))
  {
    hide Value, Plus, XorB;
    PlusIs(x.a, y.a);
    PlusIs(x.b, y.b);
    PlusIs(x.c, y.c);
    PlusIs(x.d, y.d);
  }

  lemma {:induction false} WordBoxed(x: Column, rcon: bv8)
    ensures var s := Boxed(x.b, x.c, x.d, x.a); SubRot(Word(x), Value(rcon)) == Word(s.(a := Plus(s.a, rcon)))
  {
    hide Value, Plus, XorB, Sbox, SboxTable;
    SboxOf(x.a);
    SboxOf(x.b);
    SboxOf(x.c);
    SboxOf(x.d);
    PlusIs(SboxTable(x.b), rcon);
  }

  lemma {:induction false} NextKeyIs(key: seq<byte>, r: nat, k: State, rcon: bv8)
    requires IsBlock(key) && r < 10 && HasKey(key, r, k) && |RCON| == 11 && Value(rcon) == RCON[r + 1]
    ensures HasKey(key, r + 1, NextKey(k, rcon))
  {
    hide KeyWord, Word, XorWord, SubRot, Added, Boxed, Value, Plus, RCON;
    var n := NextKey(k, rcon);
    LaterWords(key, 4 * r + 4);
    LaterWords(key, 4 * r + 5);
    LaterWords(key, 4 * r + 6);
    LaterWords(key, 4 * r + 7);
    WordBoxed(k.c3, rcon);
    var s := Boxed(k.c3.b, k.c3.c, k.c3.d, k.c3.a);
    WordAdded(k.c0, s.(a := Plus(s.a, rcon)));
    WordAdded(k.c1, n.c0);
    WordAdded(k.c2, n.c1);
    WordAdded(k.c3, n.c2);
  }

  // ----- the example ----------------------------------------------------------------------------

  const KEY: seq<byte> := [0x00, 0x01, 0x02, 0x03, 0x04, 0x05, 0x06, 0x07, 0x08, 0x09, 0x0a, 0x0b, 0x0c, 0x0d, 0x0e, 0x0f]
  const PLAIN: seq<byte> := [0x00, 0x11, 0x22, 0x33, 0x44, 0x55, 0x66, 0x77, 0x88, 0x99, 0xaa, 0xbb, 0xcc, 0xdd, 0xee, 0xff]
  const CIPHERTEXT: seq<byte> := [0x69, 0xc4, 0xe0, 0xd8, 0x6a, 0x7b, 0x04, 0x30, 0xd8, 0xcd, 0xb7, 0x80, 0x70, 0xb4, 0xc5, 0x5a]

  /** The round keys. */
  function KeyState(r: nat): (k: State)
    requires r <= 10
  {
    if r == 0 then State(Column(0x00, 0x01, 0x02, 0x03), Column(0x04, 0x05, 0x06, 0x07), Column(0x08, 0x09, 0x0a, 0x0b), Column(0x0c, 0x0d, 0x0e, 0x0f))
    else if r == 1 then State(Column(0xd6, 0xaa, 0x74, 0xfd), Column(0xd2, 0xaf, 0x72, 0xfa), Column(0xda, 0xa6, 0x78, 0xf1), Column(0xd6, 0xab, 0x76, 0xfe))
    else if r == 2 then State(Column(0xb6, 0x92, 0xcf, 0x0b), Column(0x64, 0x3d, 0xbd, 0xf1), Column(0xbe, 0x9b, 0xc5, 0x00), Column(0x68, 0x30, 0xb3, 0xfe))
    else if r == 3 then State(Column(0xb6, 0xff, 0x74, 0x4e), Column(0xd2, 0xc2, 0xc9, 0xbf), Column(0x6c, 0x59, 0x0c, 0xbf), Column(0x04, 0x69, 0xbf, 0x41))
    else if r == 4 then State(Column(0x47, 0xf7, 0xf7, 0xbc), Column(0x95, 0x35, 0x3e, 0x03), Column(0xf9, 0x6c, 0x32, 0xbc), Column(0xfd, 0x05, 0x8d, 0xfd))
    else if r == 5 then State(Column(0x3c, 0xaa, 0xa3, 0xe8), Column(0xa9, 0x9f, 0x9d, 0xeb), Column(0x50, 0xf3, 0xaf, 0x57), Column(0xad, 0xf6, 0x22, 0xaa))
    else if r == 6 then State(Column(0x5e, 0x39, 0x0f, 0x7d), Column(0xf7, 0xa6, 0x92, 0x96), Column(0xa7, 0x55, 0x3d, 0xc1), Column(0x0a, 0xa3, 0x1f, 0x6b))
    else if r == 7 then State(Column(0x14, 0xf9, 0x70, 0x1a), Column(0xe3, 0x5f, 0xe2, 0x8c), Column(0x44, 0x0a, 0xdf, 0x4d), Column(0x4e, 0xa9, 0xc0, 0x26))
    else if r == 8 then State(Column(0x47, 0x43, 0x87, 0x35), Column(0xa4, 0x1c, 0x65, 0xb9), Column(0xe0, 0x16, 0xba, 0xf4), Column(0xae, 0xbf, 0x7a, 0xd2))
    else if r == 9 then State(Column(0x54, 0x99, 0x32, 0xd1), Column(0xf0, 0x85, 0x57, 0x68), Column(0x10, 0x93, 0xed, 0x9c), Column(0xbe, 0x2c, 0x97, 0x4e))
    else State(Column(0x13, 0x11, 0x1d, 0x7f), Column(0xe3, 0x94, 0x4a, 0x17), Column(0xf3, 0x07, 0xa7, 0x8b), Column(0x4d, 0x2b, 0x30, 0xc5))
  }

  /** The state after r rounds. */
  function MidState(r: nat): (s: State)
    requires r < 10
  {
    if r == 0 then State(Column(0x00, 0x10, 0x20, 0x30), Column(0x40, 0x50, 0x60, 0x70), Column(0x80, 0x90, 0xa0, 0xb0), Column(0xc0, 0xd0, 0xe0, 0xf0))
    else if r == 1 then State(Column(0x89, 0xd8, 0x10, 0xe8), Column(0x85, 0x5a, 0xce, 0x68), Column(0x2d, 0x18, 0x43, 0xd8), Column(0xcb, 0x12, 0x8f, 0xe4))
    else if r == 2 then State(Column(0x49, 0x15, 0x59, 0x8f), Column(0x55, 0xe5, 0xd7, 0xa0), Column(0xda, 0xca, 0x94, 0xfa), Column(0x1f, 0x0a, 0x63, 0xf7))
    else if r == 3 then State(Column(0xfa, 0x63, 0x6a, 0x28), Column(0x25, 0xb3, 0x39, 0xc9), Column(0x40, 0x66, 0x8a, 0x31), Column(0x57, 0x24, 0x4d, 0x17))
    else if r == 4 then State(Column(0x24, 0x72, 0x40, 0x23), Column(0x69, 0x66, 0xb3, 0xfa), Column(0x6e, 0xd2, 0x75, 0x32), Column(0x88, 0x42, 0x5b, 0x6c))
    else if r == 5 then State(Column(0xc8, 0x16, 0x77, 0xbc), Column(0x9b, 0x7a, 0xc9, 0x3b), Column(0x25, 0x02, 0x79, 0x92), Column(0xb0, 0x26, 0x19, 0x96))
    else if r == 6 then State(Column(0xc6, 0x2f, 0xe1, 0x09), Column(0xf7, 0x5e, 0xed, 0xc3), Column(0xcc, 0x79, 0x39, 0x5d), Column(0x84, 0xf9, 0xcf, 0x5d))
    else if r == 7 then State(Column(0xd1, 0x87, 0x6c, 0x0f), Column(0x79, 0xc4, 0x30, 0x0a), Column(0xb4, 0x55, 0x94, 0xad), Column(0xd6, 0x6f, 0xf4, 0x1f))
    else if r == 8 then State(Column(0xfd, 0xe3, 0xba, 0xd2), Column(0x05, 0xe5, 0xd0, 0xd7), Column(0x35, 0x47, 0x96, 0x4e), Column(0xf1, 0xfe, 0x37, 0xf1))
    else State(Column(0xbd, 0x6e, 0x7c, 0x3d), Column(0xf2, 0xb5, 0x77, 0x9e), Column(0x0b, 0x61, 0x21, 0x6e), Column(0x8b, 0x10, 0xb6, 0x89))
  }

  function Rcon(r: nat): (v: bv8)
    requires r <= 10
  {
    if r == 0 then 0x8d else if r == 1 then 0x01 else if r == 2 then 0x02 else if r == 3 then 0x04 else if r == 4 then 0x08 else if r == 5 then 0x10
    else if r == 6 then 0x20 else if r == 7 then 0x40 else if r == 8 then 0x80 else if r == 9 then 0x1b else 0x36
  }

  lemma {:induction false} RconIs(r: nat)
    requires r <= 10
    ensures |RCON| == 11 && Value(Rcon(r)) == RCON[r]
  {
    if r < 5 {
      if r == 0 {} else if r == 1 {} else if r == 2 {} else if r == 3 {} else {}
    } else {
      if r == 5 {} else if r == 6 {} else if r == 7 {} else if r == 8 {} else if r == 9 {} else {}
    }
  }

  lemma {:induction false} FirstKeysFollow(r: nat)
    requires r < 5
    ensures KeyState(r + 1) == NextKey(KeyState(r), Rcon(r + 1))
  {
    if r == 0 {} else if r == 1 {} else if r == 2 {} else if r == 3 {} else {}
  }

  lemma {:induction false} LastKeysFollow(r: nat)
    requires 5 <= r < 10
    ensures KeyState(r + 1) == NextKey(KeyState(r), Rcon(r + 1))
  {
    if r == 5 {} else if r == 6 {} else if r == 7 {} else if r == 8 {} else {}
  }

  lemma {:induction false} KeysFollow(r: nat)
    requires r < 10
    ensures KeyState(r + 1) == NextKey(KeyState(r), Rcon(r + 1))
  {
    hide KeyState, NextKey, Rcon;
    if r < 5 { FirstKeysFollow(r); } else { LastKeysFollow(r); }
  }

  lemma {:induction false} FirstRounds(r: nat)
    requires 1 <= r <= 2
    ensures MidState(r) == Round(MidState(r - 1), KeyState(r))
  {
    if r == 1 {} else {}
  }

  lemma {:induction false} SecondRounds(r: nat)
    requires 3 <= r <= 4
    ensures MidState(r) == Round(MidState(r - 1), KeyState(r))
  {
    if r == 3 {} else {}
  }

  lemma {:induction false} ThirdRounds(r: nat)
    requires 5 <= r <= 6
    ensures MidState(r) == Round(MidState(r - 1), KeyState(r))
  {
    if r == 5 {} else {}
  }

  lemma {:induction false} FourthRounds(r: nat)
    requires 7 <= r <= 9
    ensures MidState(r) == Round(MidState(r - 1), KeyState(r))
  {
    if r == 7 {} else if r == 8 {} else {}
  }

  lemma {:induction false} StatesFollow(r: nat)
    requires 0 < r < 10
    ensures MidState(r) == Round(MidState(r - 1), KeyState(r))
  {
    hide MidState, KeyState, Round;
    if r < 3 { FirstRounds(r); } else if r < 5 { SecondRounds(r); } else if r < 7 { ThirdRounds(r); } else { FourthRounds(r); }
  }

  lemma {:induction false} LastSubstitutes()
    ensures SboxTable(0xbd) == 0x7a && SboxTable(0xb5) == 0xd5 && SboxTable(0x21) == 0xfd && SboxTable(0x89) == 0xa7
    ensures SboxTable(0xf2) == 0x89 && SboxTable(0x61) == 0xef && SboxTable(0xb6) == 0x4e && SboxTable(0x3d) == 0x27
    ensures SboxTable(0x0b) == 0x2b && SboxTable(0x10) == 0xca && SboxTable(0x7c) == 0x10 && SboxTable(0x9e) == 0x0b
    ensures SboxTable(0x8b) == 0x3d && SboxTable(0x6e) == 0x9f && SboxTable(0x77) == 0xf5
  {}

  lemma {:induction false} LastBoxed()
    ensures BoxedAll(MidState(9))
         == State(Column(0x7a, 0xd5, 0xfd, 0xa7), Column(0x89, 0xef, 0x4e, 0x27), Column(0x2b, 0xca, 0x10, 0x0b), Column(0x3d, 0x9f, 0xf5, 0x9f))
  {
    hide SboxTable;
    LastSubstitutes();
  }

  lemma {:induction false} LastState(s: State)
    requires s == AddedAll(BoxedAll(MidState(9)), KeyState(10))
    ensures s == State(Column(0x69, 0xc4, 0xe0, 0xd8), Column(0x6a, 0x7b, 0x04, 0x30), Column(0xd8, 0xcd, 0xb7, 0x80), Column(0x70, 0xb4, 0xc5, 0x5a))
  {
    hide BoxedAll;
    LastBoxed();
  }

  lemma {:induction false} HasAllKeys(r: nat)
    requires r <= 10
    ensures IsBlock(KEY) && HasKey(KEY, r, KeyState(r))
    decreases r
  {
    hide KeyState, NextKey, HasKey, Value, Rcon, KEY, RCON;
    if r == 0 {
      FirstKey();
    } else {
      HasAllKeys(r - 1);
      RconIs(r);
      NextKeyIs(KEY, r - 1, KeyState(r - 1), Rcon(r));
      KeysFollow(r - 1);
    }
  }

  lemma {:induction false} FirstKey()
    ensures IsBlock(KEY) && HasKey(KEY, 0, KeyState(0))
  {
    FirstWords(KEY, 0);
    FirstWords(KEY, 1);
    FirstWords(KEY, 2);
    FirstWords(KEY, 3);
  }

  lemma {:induction false} RoundKeyIs(rk: seq<byte>, r: nat)
    requires Scheduled(rk, KEY, 44) && r <= 10
    ensures |rk| == KEYS && RoundKey(rk, r) == Bytes(KeyState(r))
  {
    hide KeyState, KeyWord, Value, Scheduled, Word, RoundKey, KEY;
    HasAllKeys(r);
    ScheduledSize(rk, KEY, 44);
    ScheduledWord(rk, KEY, 44, 4 * r);
    ScheduledWord(rk, KEY, 44, 4 * r + 1);
    ScheduledWord(rk, KEY, 44, 4 * r + 2);
    ScheduledWord(rk, KEY, 44, 4 * r + 3);
    KeyPieces(rk, r);
    FourWords(RoundKey(rk, r), KeyState(r));
  }

  lemma {:induction false} PieceOf(s: seq<byte>, at: nat, i: nat)
    requires i <= 12 && at + 16 <= |s|
    ensures s[at..at + 16][i..i + 4] == s[at + i..at + i + 4]
  {
    var x, y := s[at..at + 16][i..i + 4], s[at + i..at + i + 4];
    forall k | 0 <= k < 4 ensures x[k] == y[k] { assert s[at..at + 16][i + k] == s[at + i + k]; }
  }

  lemma {:induction false} KeyPieces(rk: seq<byte>, r: nat)
    requires |rk| == KEYS && r <= 10
    ensures var b := RoundKey(rk, r);
            && b[0..4] == rk[4 * (4 * r)..4 * (4 * r) + 4] && b[4..8] == rk[4 * (4 * r + 1)..4 * (4 * r + 1) + 4]
            && b[8..12] == rk[4 * (4 * r + 2)..4 * (4 * r + 2) + 4] && b[12..16] == rk[4 * (4 * r + 3)..4 * (4 * r + 3) + 4]
  {
    PieceOf(rk, 16 * r, 0);
    PieceOf(rk, 16 * r, 4);
    PieceOf(rk, 16 * r, 8);
    PieceOf(rk, 16 * r, 12);
  }

  lemma {:induction false} FourWords(b: seq<byte>, k: State)
    requires IsBlock(b) && b[0..4] == Word(k.c0) && b[4..8] == Word(k.c1) && b[8..12] == Word(k.c2) && b[12..16] == Word(k.c3)
    ensures b == Bytes(k)
  {
    hide Value;
    forall i | 0 <= i < 16 ensures b[i] == Bytes(k)[i] {
      if i < 4 { assert b[0..4][i] == b[i]; }
      else if i < 8 { assert b[4..8][i - 4] == b[i]; }
      else if i < 12 { assert b[8..12][i - 8] == b[i]; }
      else { assert b[12..16][i - 12] == b[i]; }
    }
  }

  lemma {:induction false} AfterRoundsIs(rk: seq<byte>, r: nat)
    requires Scheduled(rk, KEY, 44) && r < 10
    ensures |rk| == KEYS && AfterRounds(PLAIN, rk, r) == Bytes(MidState(r))
    decreases r
  {
    hide Scheduled, KeyState, MidState, Bytes, RoundKey, Keyed, Mixed, Shifted, Substituted, Round;
    RoundKeyIs(rk, r);
    if r == 0 {
      FirstState();
    } else {
      AfterRoundsIs(rk, r - 1);
      RoundIs(MidState(r - 1), KeyState(r));
      StatesFollow(r);
    }
  }

  function PlainState(): (s: State)
  {
    State(Column(0x00, 0x11, 0x22, 0x33), Column(0x44, 0x55, 0x66, 0x77), Column(0x88, 0x99, 0xaa, 0xbb), Column(0xcc, 0xdd, 0xee, 0xff))
  }

  lemma {:induction false} PlainByte(k: nat)
    requires k < 16
    ensures Value(ByteOf(PlainState(), k)) == 0x11 * k
  {
    if k < 8 {
      if k == 0 {} else if k == 1 {} else if k == 2 {} else if k == 3 {} else if k == 4 {} else if k == 5 {} else if k == 6 {} else {}
    } else {
      if k == 8 {} else if k == 9 {} else if k == 10 {} else if k == 11 {} else if k == 12 {} else if k == 13 {} else if k == 14 {} else {}
    }
  }

  lemma {:induction false} PlainBytes()
    ensures Bytes(PlainState()) == PLAIN
  {
    hide Value, ByteOf, PlainState;
    forall k | 0 <= k < 16 ensures Bytes(PlainState())[k] == PLAIN[k] {
      PlainByte(k);
      assert PLAIN[k] == 0x11 * k;
    }
  }

  lemma {:induction false} FirstState()
    ensures Keyed(PLAIN, Bytes(KeyState(0))) == Bytes(MidState(0))
  {
    hide Bytes, Keyed;
    PlainBytes();
    AddedIs(PlainState(), KeyState(0));
    assert AddedAll(PlainState(), KeyState(0)) == MidState(0);
  }

  /** The block is enciphered as the standard says. */
  lemma {:induction false} ExampleIs(rk: seq<byte>)
    requires Scheduled(rk, KEY, 44)
    ensures |rk| == KEYS && Enciphered(PLAIN, rk) == CIPHERTEXT
  {
    hide Scheduled, KeyState, MidState, Bytes, RoundKey, Keyed, Shifted, Substituted, BoxedAll, AddedAll;
    AfterRoundsIs(rk, 9);
    RoundKeyIs(rk, 10);
    BoxedIs(MidState(9));
    AddedIs(BoxedAll(MidState(9)), KeyState(10));
    LastState(AddedAll(BoxedAll(MidState(9)), KeyState(10)));
    LastBytes();
  }

  lemma {:induction false} LastBytes()
    ensures Bytes(State(Column(0x69, 0xc4, 0xe0, 0xd8), Column(0x6a, 0x7b, 0x04, 0x30), Column(0xd8, 0xcd, 0xb7, 0x80), Column(0x70, 0xb4, 0xc5, 0x5a))) == CIPHERTEXT
  {}
}
