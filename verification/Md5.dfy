/** The MD5 message digest: the steps as the code takes them, and as sections 3.1 to 3.5 of RFC 1321 state them.
    Source: lib/md5.c. */
module Md5 {

  type Byte = bv8
  type Word = bv32

  // ----- words -----

  function LeftRotate(x: Word, c: Word): Word
    requires 0 < c < 32
  {
    (x << c) | (x >> (32 - c))
  }

  function RightRotate(x: Word, c: Word): Word
    requires 0 < c < 32
  {
    (x >> c) | (x << (32 - c))
  }

  function Byte0(x: Word): Byte { (x & 0xff) as Byte }
  function Byte1(x: Word): Byte { ((x >> 8) & 0xff) as Byte }
  function Byte2(x: Word): Byte { ((x >> 16) & 0xff) as Byte }
  function Byte3(x: Word): Byte { ((x >> 24) & 0xff) as Byte }

  /** `to_bytes`: low-order byte first */
  function Bytes(x: Word): (b: seq<Byte>)
    ensures |b| == 4
  {
    [Byte0(x), Byte1(x), Byte2(x), Byte3(x)]
  }

  function JoinBytes(b0: Byte, b1: Byte, b2: Byte, b3: Byte): Word {
    (b0 as Word) | ((b1 as Word) << 8) | ((b2 as Word) << 16) | ((b3 as Word) << 24)
  }

  /** `to_int32` */
  function ToInt32(b: seq<Byte>): Word
    requires |b| == 4
  {
    JoinBytes(b[0], b[1], b[2], b[3])
  }

  lemma JoinsBack(x: Word)
    ensures JoinBytes(Byte0(x), Byte1(x), Byte2(x), Byte3(x)) == x
  {
  }

  /** Reading back the bytes of a word gives the word. */
  lemma ToInt32UndoesBytes(x: Word)
    ensures ToInt32(Bytes(x)) == x
  {
    hide JoinBytes, Byte0, Byte1, Byte2, Byte3;
    JoinsBack(x);
  }

  /** The low byte of a number */
  function Digit(n: nat): Byte {
    (n % 256) as Byte
  }

  /** A number truncated to 32 bits, by its four low bytes */
  function U32(n: nat): Word {
    JoinBytes(Digit(n), Digit(n / 0x100), Digit(n / 0x1_0000), Digit(n / 0x100_0000))
  }

  lemma SplitsBack(b0: Byte, b1: Byte, b2: Byte, b3: Byte)
    ensures Byte0(JoinBytes(b0, b1, b2, b3)) == b0
    ensures Byte1(JoinBytes(b0, b1, b2, b3)) == b1
    ensures Byte2(JoinBytes(b0, b1, b2, b3)) == b2
    ensures Byte3(JoinBytes(b0, b1, b2, b3)) == b3
  {
  }

  lemma ByteValue(n: nat)
    requires n < 256
    ensures (n as Byte) as nat == n
  {
    if n < 128 {
      if n < 64 {
      } else {
      }
    } else if n < 192 {
    } else {
    }
  }

  lemma DigitValue(n: nat)
    ensures Digit(n) as nat == n % 256
  {
    ByteValue(n % 256);
  }

  /** The bytes of a truncated number are its digits. */
  lemma BytesOfU32(n: nat)
    ensures Bytes(U32(n)) == [Digit(n), Digit(n / 0x100), Digit(n / 0x1_0000), Digit(n / 0x100_0000)]
  {
    hide JoinBytes, Byte0, Byte1, Byte2, Byte3, Digit;
    SplitsBack(Digit(n), Digit(n / 0x100), Digit(n / 0x1_0000), Digit(n / 0x100_0000));
  }

  lemma SameDigits(m: nat, n: nat)
    requires Bytes(U32(m)) == Bytes(U32(n))
    ensures m % 0x1_0000 == n % 0x1_0000
  {
    hide Bytes, U32, Digit;
    BytesOfU32(m);
    BytesOfU32(n);
    DigitValue(m);
    DigitValue(n);
    DigitValue(m / 0x100);
    DigitValue(n / 0x100);
    LowDigits(m, n);
  }

  lemma LowDigits(m: nat, n: nat)
    requires m % 256 == n % 256 && m / 0x100 % 256 == n / 0x100 % 256
    ensures m % 0x1_0000 == n % 0x1_0000
  {
    TwoDigits(m / 0x1_0000, m / 0x100 % 256, m % 256, m);
    TwoDigits(n / 0x1_0000, n / 0x100 % 256, n % 256, n);
  }

  lemma TwoDigits(q: nat, t: nat, r: nat, n: nat)
    requires q == n / 0x1_0000 && t == n / 0x100 % 256 && r == n % 256
    ensures n % 0x1_0000 == 0x100 * t + r
  {
    var k := n / 0x100;
    assert n == 0x100 * k + r && k == 0x100 * (k / 0x100) + t;
  }

  // ----- padding, sections 3.1 and 3.2 -----

  function Zeros(n: nat): (z: seq<Byte>)
    ensures |z| == n
  {
    seq(n, _ => 0)
  }

  /** The number of zero bytes that brings a message and its one bit to 56 modulo 64. */
  function PadZeros(len: nat): (n: nat)
    ensures n < 64 && (len + 1 + n) % 64 == 56
  {
    (119 - len % 64) % 64
  }

  /** The message, a one bit, zero bits, and the length in bits modulo 2^64, low-order word first. */
  function Pad(msg: seq<Byte>): (padded: seq<Byte>)
    ensures |padded| == |msg| + PadZeros(|msg|) + 9
  {
    msg + [0x80] + Zeros(PadZeros(|msg|)) + Bytes(U32(8 * |msg|)) + Bytes(U32(8 * |msg| / 0x1_0000_0000))
  }

  /** Padding makes the least multiple of 64 bytes that holds the message and nine bytes more. */
  lemma PaddedLength(msg: seq<Byte>)
    ensures |Pad(msg)| % 64 == 0 && |msg| + 9 <= |Pad(msg)|
    ensures forall n: nat :: n % 64 == 0 && |msg| + 9 <= n ==> |Pad(msg)| <= n
  {
    hide Pad, PadZeros;
    MultipleOf64(|msg|);
    forall n: nat | n % 64 == 0 && |msg| + 9 <= n
      ensures |Pad(msg)| <= n
    {
      NextMultiple(|Pad(msg)|, n);
    }
  }

  lemma MultipleOf64(len: nat)
    ensures (len + PadZeros(len) + 9) % 64 == 0
  {
  }

  lemma NextMultiple(p: nat, n: nat)
    requires p % 64 == 0 && n % 64 == 0 && p < n + 64
    ensures p <= n
  {
  }

  lemma LengthBytes(msg: seq<Byte>)
    ensures var p := Pad(msg);
      p[|p| - 8..|p| - 4] == Bytes(U32(8 * |msg|)) && p[..|msg|] == msg
  {
    hide Bytes, U32;
  }

  /** Different messages are padded differently, whatever their lengths. */
  lemma PaddingIsInjective(m: seq<Byte>, n: seq<Byte>)
    requires Pad(m) == Pad(n)
    ensures m == n
  {
    hide Pad, Bytes, U32, PadZeros;
    LengthBytes(m);
    LengthBytes(n);
    SameDigits(8 * |m|, 8 * |n|);
    SameLength(|m|, |n|);
  }

  lemma SameLength(m: nat, n: nat)
    requires m + PadZeros(m) == n + PadZeros(n)
    requires (8 * m) % 0x1_0000 == (8 * n) % 0x1_0000
    ensures m == n
  {
    var d := if m < n then n - m else m - n;
    assert d < 64 && (8 * d) % 0x1_0000 == 0;
  }

  // ----- the 64 steps, as the code takes them -----

  /** The table `k` */
  function Sine(i: nat): Word
    requires i < 64
  {
    match i
    case 0 => 0xd76aa478 case 1 => 0xe8c7b756 case 2 => 0x242070db case 3 => 0xc1bdceee
    case 4 => 0xf57c0faf case 5 => 0x4787c62a case 6 => 0xa8304613 case 7 => 0xfd469501
    case 8 => 0x698098d8 case 9 => 0x8b44f7af case 10 => 0xffff5bb1 case 11 => 0x895cd7be
    case 12 => 0x6b901122 case 13 => 0xfd987193 case 14 => 0xa679438e case 15 => 0x49b40821
    case 16 => 0xf61e2562 case 17 => 0xc040b340 case 18 => 0x265e5a51 case 19 => 0xe9b6c7aa
    case 20 => 0xd62f105d case 21 => 0x02441453 case 22 => 0xd8a1e681 case 23 => 0xe7d3fbc8
    case 24 => 0x21e1cde6 case 25 => 0xc33707d6 case 26 => 0xf4d50d87 case 27 => 0x455a14ed
    case 28 => 0xa9e3e905 case 29 => 0xfcefa3f8 case 30 => 0x676f02d9 case 31 => 0x8d2a4c8a
    case 32 => 0xfffa3942 case 33 => 0x8771f681 case 34 => 0x6d9d6122 case 35 => 0xfde5380c
    case 36 => 0xa4beea44 case 37 => 0x4bdecfa9 case 38 => 0xf6bb4b60 case 39 => 0xbebfbc70
    case 40 => 0x289b7ec6 case 41 => 0xeaa127fa case 42 => 0xd4ef3085 case 43 => 0x04881d05
    case 44 => 0xd9d4d039 case 45 => 0xe6db99e5 case 46 => 0x1fa27cf8 case 47 => 0xc4ac5665
    case 48 => 0xf4292244 case 49 => 0x432aff97 case 50 => 0xab9423a7 case 51 => 0xfc93a039
    case 52 => 0x655b59c3 case 53 => 0x8f0ccc92 case 54 => 0xffeff47d case 55 => 0x85845dd1
    case 56 => 0x6fa87e4f case 57 => 0xfe2ce6e0 case 58 => 0xa3014314 case 59 => 0x4e0811a1
    case 60 => 0xf7537e82 case 61 => 0xbd3af235 case 62 => 0x2ad7d2bb case _ => 0xeb86d391
  }

  /** The table `r`, which repeats every four steps of a round */
  function Amount(i: nat): (c: Word)
    requires i < 64
    ensures 0 < c < 32
  {
    if i < 16 then [7, 12, 17, 22][i % 4]
    else if i < 32 then [5, 9, 14, 20][i % 4]
    else if i < 48 then [4, 11, 16, 23][i % 4]
    else [6, 10, 15, 21][i % 4]
  }

  datatype Registers<W> = Registers(a: W, b: W, c: W, d: W)

  function Sum(a: Word, f: Word, k: Word, w: Word): Word { a + f + k + w }

  function Plus(b: Word, y: Word): Word { b + y }

  function Mix(a: Word, f: Word, k: Word, w: Word, b: Word, r: Word): Word
    requires 0 < r < 32
  {
    Plus(b, LeftRotate(Sum(a, f, k, w), r))
  }

  /** The four functions of section 3.4 */
  function F(x: Word, y: Word, z: Word): Word { (x & y) | (!x & z) }
  function G(x: Word, y: Word, z: Word): Word { (x & z) | (y & !z) }
  function H(x: Word, y: Word, z: Word): Word { x ^ y ^ z }
  function I(x: Word, y: Word, z: Word): Word { y ^ (x | !z) }

  /** `f` and `g` of the main loop; its second form of `f` is the first with the variables moved round. */
  function Choice(i: nat, b: Word, c: Word, d: Word): Word {
    if i < 16 then F(b, c, d)
    else if i < 32 then F(d, b, c)
    else if i < 48 then H(b, c, d)
    else I(b, c, d)
  }

  function Place(i: nat): (g: nat)
    requires i < 64
    ensures g < 16
  {
    if i < 16 then i
    else if i < 32 then (5 * i + 1) % 16
    else if i < 48 then (3 * i + 5) % 16
    else (7 * i) % 16
  }

  type Block = w: seq<Word> | |w| == 16 witness seq(16, _ => 0)

  /** One turn of the main loop */
  function Turn(s: Registers<Word>, i: nat, w: Block): Registers<Word>
    requires i < 64
  {
    Registers(s.d, Mix(s.a, Choice(i, s.b, s.c, s.d), Sine(i), w[Place(i)], s.b, Amount(i)), s.b, s.c)
  }

  function Turns(s: Registers<Word>, n: nat, w: Block): Registers<Word>
    requires n <= 64
  {
    if n == 0 then s else Turn(Turns(s, n - 1, w), n - 1, w)
  }

  // ----- the 64 operations of section 3.4 -----

  /** The registers A, B, C and D of the standard stay where they are. */
  datatype State<W> = State(a: W, b: W, c: W, d: W)

  function Aux(i: nat, x: Word, y: Word, z: Word): Word {
    if i < 16 then F(x, y, z) else if i < 32 then G(x, y, z) else if i < 48 then H(x, y, z) else I(x, y, z)
  }

  /** The words of the block in the order that the four rounds list them. */
  const ROUND1: seq<nat> := [0, 1, 2, 3, 4, 5, 6, 7, 8, 9, 10, 11, 12, 13, 14, 15]
  const ROUND2: seq<nat> := [1, 6, 11, 0, 5, 10, 15, 4, 9, 14, 3, 8, 13, 2, 7, 12]
  const ROUND3: seq<nat> := [5, 8, 11, 14, 1, 4, 7, 10, 13, 0, 3, 6, 9, 12, 15, 2]
  const ROUND4: seq<nat> := [0, 7, 14, 5, 12, 3, 10, 1, 8, 15, 6, 13, 4, 11, 2, 9]

  function Order(i: nat): (k: nat)
    requires i < 64
    ensures k < 16
  {
    if i < 16 then ROUND1[i] else if i < 32 then ROUND2[i - 16] else if i < 48 then ROUND3[i - 32] else ROUND4[i - 48]
  }

  /** The amounts of the four operations that a round repeats */
  function Shift(round: nat, register: nat): (s: Word)
    requires round < 4 && register < 4
    ensures 0 < s < 32
  {
    match (round, register)
    case (0, 0) => 7 case (0, 1) => 12 case (0, 2) => 17 case (0, _) => 22
    case (1, 0) => 5 case (1, 1) => 9 case (1, 2) => 14 case (1, _) => 20
    case (2, 0) => 4 case (2, 1) => 11 case (2, 2) => 16 case (2, _) => 23
    case (_, 0) => 6 case (_, 1) => 10 case (_, 2) => 15 case (_, _) => 21
  }

  /** `a = b + ((a + Aux(b,c,d) + X[k] + T[i]) <<< s)` */
  function Operation(i: nat, a: Word, b: Word, c: Word, d: Word, x: Block): Word
    requires i < 64
  {
    Mix(a, Aux(i, b, c, d), Sine(i), x[Order(i)], b, Shift(i / 16, i % 4))
  }

  /** The lists of operations run through [ABCD k s i], [DABC k s i], [CDAB k s i] and [BCDA k s i]. */
  function Operate<W>(s: State<W>, i: nat, op: (W, W, W, W) -> W): State<W> {
    if i % 4 == 0 then s.(a := op(s.a, s.b, s.c, s.d))
    else if i % 4 == 1 then s.(d := op(s.d, s.a, s.b, s.c))
    else if i % 4 == 2 then s.(c := op(s.c, s.d, s.a, s.b))
    else s.(b := op(s.b, s.c, s.d, s.a))
  }

  function Operations(s: State<Word>, n: nat, x: Block): State<Word>
    requires n <= 64
  {
    if n == 0 then s
    else Operate(Operations(s, n - 1, x), n - 1, (a, b, c, d) => Operation(n - 1, a, b, c, d, x))
  }

  // ----- the code's steps are the standard's operations -----

  /** The registers of the standard as the code's variables hold them after n steps. */
  function Shifted<W>(s: State<W>, n: nat): Registers<W> {
    if n % 4 == 0 then Registers(s.a, s.b, s.c, s.d)
    else if n % 4 == 1 then Registers(s.d, s.a, s.b, s.c)
    else if n % 4 == 2 then Registers(s.c, s.d, s.a, s.b)
    else Registers(s.b, s.c, s.d, s.a)
  }

  /** Handing every variable on to the next is giving every register the next role. */
  lemma PassingOn<W>(s: State<W>, i: nat, op: (W, W, W, W) -> W)
    ensures var r := Shifted(s, i);
      Registers(r.d, op(r.a, r.b, r.c, r.d), r.b, r.c) == Shifted(Operate(s, i, op), i + 1)
  {
  }

  lemma SameG(x: Word, y: Word, z: Word)
    ensures F(z, x, y) == G(x, y, z)
  {
  }

  lemma SameChoice(i: nat, x: Word, y: Word, z: Word)
    ensures Choice(i, x, y, z) == Aux(i, x, y, z)
  {
    hide F, G, H, I;
    SameG(x, y, z);
  }

  lemma Round2At(j: nat)
    requires j < 16
    ensures (5 * (j + 16) + 1) % 16 == ROUND2[j]
  {
  }

  lemma Round3At(j: nat)
    requires j < 16
    ensures (3 * (j + 32) + 5) % 16 == ROUND3[j]
  {
  }

  lemma Round4At(j: nat)
    requires j < 16
    ensures (7 * (j + 48)) % 16 == ROUND4[j]
  {
  }

  lemma SamePlace(i: nat)
    requires i < 64
    ensures Place(i) == Order(i)
  {
    if i < 16 {
    } else if i < 32 {
      Round2At(i - 16);
    } else if i < 48 {
      Round3At(i - 32);
    } else {
      Round4At(i - 48);
    }
  }

  lemma SameAmount(i: nat)
    requires i < 64
    ensures Amount(i) == Shift(i / 16, i % 4)
  {
  }

  lemma TurnIsOperation(r: Registers<Word>, i: nat, w: Block)
    requires i < 64
    ensures Turn(r, i, w) == Registers(r.d, Operation(i, r.a, r.b, r.c, r.d, w), r.b, r.c)
  {
    hide Choice, Aux, Mix, Place, Order, Amount, Shift, Sine;
    SameChoice(i, r.b, r.c, r.d);
    SamePlace(i);
    SameAmount(i);
  }

  /** After every number of steps the code's variables hold the standard's registers. */
  lemma {:induction false} TurnsAreOperations(s: State<Word>, n: nat, w: Block)
    requires n <= 64
    ensures Turns(Shifted(s, 0), n, w) == Shifted(Operations(s, n, w), n)
  {
    hide Turn, Operation, Operate, Shifted;
    if n > 0 {
      TurnsAreOperations(s, n - 1, w);
      var before := Operations(s, n - 1, w);
      TurnIsOperation(Shifted(before, n - 1), n - 1, w);
      PassingOn(before, n - 1, (a, b, c, d) => Operation(n - 1, a, b, c, d, w));
    }
  }

  // ----- the steps can be undone -----

  predicate Undone(x: Word, c: Word)
    requires 0 < c < 32
  {
    RightRotate(LeftRotate(x, c), c) == x && LeftRotate(RightRotate(x, c), c) == x
  }

  lemma Undone4(x: Word) ensures RightRotate(LeftRotate(x, 4), 4) == x && LeftRotate(RightRotate(x, 4), 4) == x {}
  lemma Undone5(x: Word) ensures RightRotate(LeftRotate(x, 5), 5) == x && LeftRotate(RightRotate(x, 5), 5) == x {}
  lemma Undone6(x: Word) ensures RightRotate(LeftRotate(x, 6), 6) == x && LeftRotate(RightRotate(x, 6), 6) == x {}
  lemma Undone7(x: Word) ensures RightRotate(LeftRotate(x, 7), 7) == x && LeftRotate(RightRotate(x, 7), 7) == x {}
  lemma Undone9(x: Word) ensures RightRotate(LeftRotate(x, 9), 9) == x && LeftRotate(RightRotate(x, 9), 9) == x {}
  lemma Undone10(x: Word) ensures RightRotate(LeftRotate(x, 10), 10) == x && LeftRotate(RightRotate(x, 10), 10) == x {}
  lemma Undone11(x: Word) ensures RightRotate(LeftRotate(x, 11), 11) == x && LeftRotate(RightRotate(x, 11), 11) == x {}
  lemma Undone12(x: Word) ensures RightRotate(LeftRotate(x, 12), 12) == x && LeftRotate(RightRotate(x, 12), 12) == x {}
  lemma Undone14(x: Word) ensures RightRotate(LeftRotate(x, 14), 14) == x && LeftRotate(RightRotate(x, 14), 14) == x {}
  lemma Undone15(x: Word) ensures RightRotate(LeftRotate(x, 15), 15) == x && LeftRotate(RightRotate(x, 15), 15) == x {}
  lemma Undone16(x: Word) ensures RightRotate(LeftRotate(x, 16), 16) == x && LeftRotate(RightRotate(x, 16), 16) == x {}
  lemma Undone17(x: Word) ensures RightRotate(LeftRotate(x, 17), 17) == x && LeftRotate(RightRotate(x, 17), 17) == x {}
  lemma Undone20(x: Word) ensures RightRotate(LeftRotate(x, 20), 20) == x && LeftRotate(RightRotate(x, 20), 20) == x {}
  lemma Undone21(x: Word) ensures RightRotate(LeftRotate(x, 21), 21) == x && LeftRotate(RightRotate(x, 21), 21) == x {}
  lemma Undone22(x: Word) ensures RightRotate(LeftRotate(x, 22), 22) == x && LeftRotate(RightRotate(x, 22), 22) == x {}
  lemma Undone23(x: Word) ensures RightRotate(LeftRotate(x, 23), 23) == x && LeftRotate(RightRotate(x, 23), 23) == x {}

  /** Rotating back undoes every rotation that is used. */
  lemma RotationUndone(x: Word, i: nat)
    requires i < 64
    ensures Undone(x, Amount(i))
  {
    hide LeftRotate, RightRotate;
    if i < 16 {
      Undone7(x); Undone12(x); Undone17(x); Undone22(x);
    } else if i < 32 {
      Undone5(x); Undone9(x); Undone14(x); Undone20(x);
    } else if i < 48 {
      Undone4(x); Undone11(x); Undone16(x); Undone23(x);
    } else {
      Undone6(x); Undone10(x); Undone15(x); Undone21(x);
    }
  }

  function Less(s: Word, f: Word, k: Word, w: Word): Word { s - f - k - w }

  function Minus(s: Word, b: Word): Word { s - b }

  lemma LessOf(a: Word, f: Word, k: Word, w: Word) ensures Less(a + f + k + w, f, k, w) == a {}
  lemma SumOf(s: Word, f: Word, k: Word, w: Word) ensures Sum(s - f - k - w, f, k, w) == s {}
  lemma MinusOf(b: Word, y: Word) ensures Minus(b + y, b) == y {}
  lemma PlusOf(b: Word, s: Word) ensures Plus(b, s - b) == s {}

  lemma LessSum(a: Word, f: Word, k: Word, w: Word)
    ensures Less(Sum(a, f, k, w), f, k, w) == a
  {
    hide Less;
    LessOf(a, f, k, w);
  }

  lemma SumLess(s: Word, f: Word, k: Word, w: Word)
    ensures Sum(Less(s, f, k, w), f, k, w) == s
  {
    hide Sum;
    SumOf(s, f, k, w);
  }

  lemma MinusPlus(b: Word, y: Word)
    ensures Minus(Plus(b, y), b) == y
  {
    hide Minus;
    MinusOf(b, y);
  }

  lemma PlusMinus(b: Word, s: Word)
    ensures Plus(b, Minus(s, b)) == s
  {
    hide Plus;
    PlusOf(b, s);
  }

  function Unmix(m: Word, f: Word, k: Word, w: Word, b: Word, r: Word): Word
    requires 0 < r < 32
  {
    Less(RightRotate(Minus(m, b), r), f, k, w)
  }

  lemma MixUndone(x: Word, f: Word, k: Word, w: Word, b: Word, i: nat)
    requires i < 64
    ensures Unmix(Mix(x, f, k, w, b, Amount(i)), f, k, w, b, Amount(i)) == x
    ensures Mix(Unmix(x, f, k, w, b, Amount(i)), f, k, w, b, Amount(i)) == x
  {
    hide LeftRotate, RightRotate, Sum, Less, Plus, Minus, Amount;
    RotationUndone(Sum(x, f, k, w), i);
    RotationUndone(Minus(x, b), i);
    LessSum(x, f, k, w);
    SumLess(RightRotate(Minus(x, b), Amount(i)), f, k, w);
    PlusMinus(b, x);
    MinusPlus(b, LeftRotate(Sum(x, f, k, w), Amount(i)));
  }

  function Unturn(s: Registers<Word>, i: nat, w: Block): Registers<Word>
    requires i < 64
  {
    Registers(Unmix(s.b, Choice(i, s.c, s.d, s.a), Sine(i), w[Place(i)], s.c, Amount(i)), s.c, s.d, s.a)
  }

  function Unturns(s: Registers<Word>, n: nat, w: Block): Registers<Word>
    requires n <= 64
    decreases n
  {
    if n == 0 then s else Unturns(Unturn(s, n - 1, w), n - 1, w)
  }

  lemma TurnUndone(s: Registers<Word>, i: nat, w: Block)
    requires i < 64
    ensures Unturn(Turn(s, i, w), i, w) == s && Turn(Unturn(s, i, w), i, w) == s
  {
    hide Mix, Unmix, Choice, Amount, Sine, Place;
    MixUndone(s.a, Choice(i, s.b, s.c, s.d), Sine(i), w[Place(i)], s.b, i);
    MixUndone(s.b, Choice(i, s.c, s.d, s.a), Sine(i), w[Place(i)], s.c, i);
  }

  /** For every block the steps are a bijection on the four variables: they have an inverse on both sides. */
  lemma {:induction false} StepsAreBijective(s: Registers<Word>, n: nat, w: Block)
    requires n <= 64
    ensures Unturns(Turns(s, n, w), n, w) == s
    ensures Turns(Unturns(s, n, w), n, w) == s
    decreases n
  {
    hide Turn, Unturn;
    if n > 0 {
      TurnUndone(Turns(s, n - 1, w), n - 1, w);
      StepsAreBijective(s, n - 1, w);
      StepsAreBijective(Unturn(s, n - 1, w), n - 1, w);
      TurnUndone(s, n - 1, w);
    }
  }
}
