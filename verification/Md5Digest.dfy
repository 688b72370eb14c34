/** The digest of a whole message: the reference fold over blocks, and the loops that compute it.
    Source: `md5` in lib/md5.c. */
module Md5Digest {
  import opened Md5

  // ----- sections 3.3 to 3.5 -----

  /** The initial registers, low-order bytes first */
  const INITIAL: State<Word> := State(
    ToInt32([0x01, 0x23, 0x45, 0x67]), ToInt32([0x89, 0xab, 0xcd, 0xef]),
    ToInt32([0xfe, 0xdc, 0xba, 0x98]), ToInt32([0x76, 0x54, 0x32, 0x10]))

  function Words(chunk: seq<Byte>): Block
    requires |chunk| == 64
  {
    seq(16, j requires 0 <= j < 16 => ToInt32(chunk[4 * j..4 * j + 4]))
  }

  function AddStates(s: State<Word>, t: State<Word>): State<Word> {
    State(Plus(s.a, t.a), Plus(s.b, t.b), Plus(s.c, t.c), Plus(s.d, t.d))
  }

  function Compress(s: State<Word>, x: Block): State<Word> {
    AddStates(s, Operations(s, 64, x))
  }

  function Fold(s: State<Word>, padded: seq<Byte>): State<Word>
    requires |padded| % 64 == 0
    decreases |padded|
  {
    if padded == [] then s else Fold(Compress(s, Words(padded[..64])), padded[64..])
  }

  function Output(s: State<Word>): (digest: seq<Byte>)
    ensures |digest| == 16
  {
    Bytes(s.a) + Bytes(s.b) + Bytes(s.c) + Bytes(s.d)
  }

  function Digest(msg: seq<Byte>): (digest: seq<Byte>)
    ensures |digest| == 16
  {
    PaddedLength(msg);
    Output(Fold(INITIAL, Pad(msg)))
  }

  // ----- the loops of md5 -----

  const SIZE_LIMIT := 0x1_0000_0000_0000_0000

  /** `to_bytes`, into the four bytes from a position on */
  method ToBytes(val: Word, bytes: array<Byte>, at: nat)
    requires at + 4 <= bytes.Length
    modifies bytes
    ensures bytes[..] == old(bytes[..at]) + Bytes(val) + old(bytes[at + 4..])
  {
    hide Byte0, Byte1, Byte2, Byte3;
    bytes[at] := Byte0(val);
    bytes[at + 1] := Byte1(val);
    bytes[at + 2] := Byte2(val);
    bytes[at + 3] := Byte3(val);
  }

  /** The first loop: the length before the last eight bytes */
  method NewLen(len: nat) returns (newLen: nat)
    ensures newLen == len + 1 + PadZeros(len)
  {
    newLen := len + 1;
    while newLen % 64 != 56
      invariant len < newLen <= len + 1 + PadZeros(len)
      decreases len + 1 + PadZeros(len) - newLen
    {
      newLen := newLen + 1;
    }
    FirstIs(len, newLen);
  }

  lemma FirstIs(len: nat, n: nat)
    requires len < n <= len + 1 + PadZeros(len) && n % 64 == 56
    ensures n == len + 1 + PadZeros(len)
  {
  }

  /** The message, prepared */
  method Prepare(initial: array<Byte>, len: nat) returns (msg: array<Byte>, newLen: nat)
    requires len <= initial.Length && len + 72 < SIZE_LIMIT
    ensures fresh(msg) && msg[..] == Pad(initial[..len]) && newLen + 8 == msg.Length
  {
    hide Bytes, U32;
    newLen := NewLen(len);
    msg := new Byte[newLen + 8];
    forall k | 0 <= k < len {
      msg[k] := initial[k];
    }
    msg[len] := 0x80;
    for offset := len + 1 to newLen
      invariant msg[..len] == initial[..len] && msg[len] == 0x80
      invariant forall k :: len < k < offset ==> msg[k] == 0
    {
      msg[offset] := 0;
    }
    assert msg[..newLen] == initial[..len] + [0x80] + Zeros(PadZeros(len));
    ToBytes(U32(len * 8), msg, newLen);
    assert msg[..newLen + 4] == initial[..len] + [0x80] + Zeros(PadZeros(len)) + Bytes(U32(8 * len));
    ToBytes(U32(len / 0x2000_0000), msg, newLen + 4);
    assert 8 * len / 0x1_0000_0000 == len / 0x2000_0000;
  }

  /** The sixteen words of the chunk at a position */
  method LoadWords(msg: array<Byte>, offset: nat) returns (w: array<Word>)
    requires offset + 64 <= msg.Length
    ensures w.Length == 16 && fresh(w) && w[..] == Words(msg[offset..offset + 64])
  {
    hide ToInt32;
    w := new Word[16];
    for i := 0 to 16
      invariant forall j :: 0 <= j < i ==> w[j] == ToInt32(msg[offset + 4 * j..offset + 4 * j + 4])
    {
      w[i] := ToInt32(msg[offset + i * 4..offset + i * 4 + 4]);
    }
    var chunk := msg[offset..offset + 64];
    forall j | 0 <= j < 16
      ensures chunk[4 * j..4 * j + 4] == msg[offset + 4 * j..offset + 4 * j + 4]
    {
    }
  }

  /** The main loop over a chunk */
  method Steps(w: array<Word>, h0: Word, h1: Word, h2: Word, h3: Word)
    returns (a: Word, b: Word, c: Word, d: Word)
    requires w.Length == 16
    ensures Registers(a, b, c, d) == Turns(Registers(h0, h1, h2, h3), 64, w[..])
  {
    hide Mix, Choice, Place, Sine, Amount;
    a, b, c, d := h0, h1, h2, h3;
    for i := 0 to 64
      invariant Registers(a, b, c, d) == Turns(Registers(h0, h1, h2, h3), i, w[..])
    {
      var f, g := Choose(i, b, c, d);
      var temp := d;
      d := c;
      c := b;
      b := Mix(a, f, Sine(i), w[g], b, Amount(i));
      a := temp;
    }
  }

  /** The function and the place of a step */
  method Choose(i: nat, b: Word, c: Word, d: Word) returns (f: Word, g: nat)
    requires i < 64
    ensures f == Choice(i, b, c, d) && g == Place(i)
  {
    hide F, H, I;
    if i < 16 {
      f := F(b, c, d);
      g := i;
    } else if i < 32 {
      f := F(d, b, c);
      g := (5 * i + 1) % 16;
    } else if i < 48 {
      f := H(b, c, d);
      g := (3 * i + 5) % 16;
    } else {
      f := I(b, c, d);
      g := (7 * i) % 16;
    }
  }

  lemma TurnsCompress(s: State<Word>, w: Block)
    ensures var t := Turns(Registers(s.a, s.b, s.c, s.d), 64, w);
      AddStates(s, State(t.a, t.b, t.c, t.d)) == Compress(s, w)
  {
    hide Turns, Operations, Plus;
    TurnsAreOperations(s, 64, w);
  }

  lemma FoldNext(s: State<Word>, padded: seq<Byte>, offset: nat)
    requires |padded| % 64 == 0 && offset % 64 == 0 && offset < |padded|
    ensures offset + 64 <= |padded|
    ensures Fold(s, padded[offset..]) == Fold(Compress(s, Words(padded[offset..offset + 64])), padded[offset + 64..])
  {
    hide Compress, Words;
    assert padded[offset..][..64] == padded[offset..offset + 64];
    assert padded[offset..][64..] == padded[offset + 64..];
  }

  lemma InitialIs()
    ensures INITIAL == State(0x67452301, 0xefcdab89, 0x98badcfe, 0x10325476)
  {
  }

  /** The end of `md5` */
  method WriteDigest(h0: Word, h1: Word, h2: Word, h3: Word, digest: array<Byte>)
    requires digest.Length == 16
    modifies digest
    ensures digest[..] == Output(State(h0, h1, h2, h3))
  {
    hide Bytes;
    ToBytes(h0, digest, 0);
    ToBytes(h1, digest, 4);
    ToBytes(h2, digest, 8);
    ToBytes(h3, digest, 12);
  }

  /** `md5` */
  method ComputeMd5(initial: array<Byte>, len: nat, digest: array<Byte>)
    requires len <= initial.Length && len + 72 < SIZE_LIMIT && digest.Length == 16
    modifies digest
    ensures digest[..] == Digest(old(initial[..len]))
  {
    hide Fold, Compress, Words, Bytes, Pad, Turns, Plus, ToInt32, Output;
    var h0, h1, h2, h3 := 0x67452301, 0xefcdab89, 0x98badcfe, 0x10325476;
    InitialIs();
    var msg, newLen := Prepare(initial, len);
    ghost var padded := msg[..];
    PaddedLength(initial[..len]);
    var offset := 0;
    while offset < newLen
      invariant offset % 64 == 0 && offset <= msg.Length
      invariant msg[..] == padded
      invariant Fold(State(h0, h1, h2, h3), padded[offset..]) == Fold(INITIAL, padded)
      decreases msg.Length - offset
    {
      FoldNext(State(h0, h1, h2, h3), padded, offset);
      var w := LoadWords(msg, offset);
      var a, b, c, d := Steps(w, h0, h1, h2, h3);
      TurnsCompress(State(h0, h1, h2, h3), w[..]);
      h0, h1, h2, h3 := Plus(h0, a), Plus(h1, b), Plus(h2, c), Plus(h3, d);
      offset := offset + 64;
    }
    FoldNone(State(h0, h1, h2, h3));
    assert padded[offset..] == [];
    WriteDigest(h0, h1, h2, h3, digest);
  }

  lemma FoldNone(s: State<Word>)
    ensures Fold(s, []) == s
  {
  }
}
