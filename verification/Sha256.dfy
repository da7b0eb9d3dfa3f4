/** The incremental SHA-256 object: compression state, block buffer and counters updated in place. */
module Sha256 {
  import opened Wrappers
  import opened Sha256Spec

  const BLOCK_SIZE: nat := 64
  const UINT_MAX_PLUS_1: nat := 0x1_0000_0000

  // ---- the macros ------------------------------------------------------------------------------

  function F1(x: word): (r: word)
    ensures r == BigSigma0(x)
  {
    hide Xor;
    Xor(Xor((x >> 2) | (x << 30), (x >> 13) | (x << 19)), (x >> 22) | (x << 10))
  }

  function F2(x: word): (r: word)
    ensures r == BigSigma1(x)
  {
    hide Xor;
    Xor(Xor((x >> 6) | (x << 26), (x >> 11) | (x << 21)), (x >> 25) | (x << 7))
  }

  function F3(x: word): (r: word)
    ensures r == SmallSigma0(x)
  {
    hide Xor;
    Xor(Xor((x >> 7) | (x << 25), (x >> 18) | (x << 14)), x >> 3)
  }

  function F4(x: word): (r: word)
    ensures r == SmallSigma1(x)
  {
    hide Xor;
    Xor(Xor((x >> 17) | (x << 15), (x >> 19) | (x << 13)), x >> 10)
  }

  /** SHA2_PACK32 */
  function Pack32(b0: byte, b1: byte, b2: byte, b3: byte): (r: word)
    ensures r == (b0 as word) * 0x100_0000 + (b1 as word) * 0x1_0000 + (b2 as word) * 0x100 + (b3 as word)
  {
    (b3 as word) | ((b2 as word) << 8) | ((b1 as word) << 16) | ((b0 as word) << 24)
  }

  /** The low 32 bits of a length in bits. */
  function LowLength(n: nat): nat { 8 * n % UINT_MAX_PLUS_1 }

  /** What `final` feeds to the last blocks: like Pad, but only the low 32 bits of the length. */
  function CodePad(m: seq<byte>): seq<byte> {
    m + [0x80] + Zeros(ZeroBytes(|m|) + 4) + BigEndian(LowLength(|m|), 4)
  }

  lemma PackIsW(m: seq<byte>, t: nat)
    requires |m| == 64 && t < 16
    ensures Pack32(m[4 * t], m[4 * t + 1], m[4 * t + 2], m[4 * t + 3]) == W(m, t)
  {
  }

  lemma NextW(m: seq<byte>, t: nat)
    requires |m| == 64 && t >= 16
    ensures W(m, t) == Add(Add(Add(F4(W(m, t - 2)), W(m, t - 7)), F3(W(m, t - 15))), W(m, t - 16))
  {
    hide Add, SmallSigma0, SmallSigma1, F3, F4, BlockWord;
  }

  /** The digest is that of the standard as long as the length fits 29 bits. */
  lemma CodePadIsPad(m: seq<byte>)
    requires |m| < 0x2000_0000_0000_0000
    ensures |CodePad(m)| == |Pad(m)|
    ensures CodePad(m) == Pad(m) <==> |m| < 0x2000_0000
  {
    var n, zeros := 8 * |m|, Zeros(ZeroBytes(|m|));
    var high, low := n / UINT_MAX_PLUS_1, n % UINT_MAX_PLUS_1;
    FourBytes(n, 4);
    var front := m + [0x80] + zeros;
    assert Pad(m) == front + BigEndian(high, 4) + BigEndian(low, 4);
    assert CodePad(m) == front + Zeros(4) + BigEndian(low, 4);
    assert Zeros(ZeroBytes(|m|) + 4) == zeros + Zeros(4);
    BigEndianZero(high);
    if CodePad(m) == Pad(m) {
      assert Zeros(4) == Pad(m)[|front|..|front| + 4];
      assert BigEndian(high, 4) == Pad(m)[|front|..|front| + 4];
    }
  }

  lemma DigestOf(m: seq<byte>)
    requires |m| < 0x2000_0000
    ensures Bytes(HashBlocks(H0, CodePad(m))) == Digest(m)
  {
    CodePadIsPad(m);
    hide CodePad, Pad;
  }

  /** The last four base-256 digits. */
  function Low4(n: nat): seq<byte> {
    [(n / 256 / 256 / 256 % 256) as byte, (n / 256 / 256 % 256) as byte, (n / 256 % 256) as byte, (n % 256) as byte]
  }

  lemma FourBytes(n: nat, size: nat)
    ensures BigEndian(n, size + 4) == BigEndian(n / UINT_MAX_PLUS_1, size) + BigEndian(n % UINT_MAX_PLUS_1, 4)
  {
    hide Low4;
    LowDigits(n);
    Unroll4(n, size);
    Unroll4(n % UINT_MAX_PLUS_1, 0);
    assert BigEndian(n % UINT_MAX_PLUS_1, 4) == Low4(n);
  }

  lemma LowDigits(n: nat)
    ensures n / 256 / 256 / 256 / 256 == n / UINT_MAX_PLUS_1 && Low4(n % UINT_MAX_PLUS_1) == Low4(n)
  {
    var q, m := n / UINT_MAX_PLUS_1, n % UINT_MAX_PLUS_1;
    var n1, m1 := n / 256, m / 256;
    var n2, m2 := n1 / 256, m1 / 256;
    var n3, m3 := n2 / 256, m2 / 256;
    Digit(0x100_0000 * q, m, n);
    Digit(0x1_0000 * q, m1, n1);
    Digit(0x100 * q, m2, n2);
    Digit(q, m3, n3);
    assert m1 < 0x100_0000;
    assert m2 < 0x1_0000;
    assert m3 < 0x100;
    Digits4(n, n1, n2, n3, m, m1, m2, m3);
  }

  lemma Digits4(n: nat, n1: nat, n2: nat, n3: nat, m: nat, m1: nat, m2: nat, m3: nat)
    requires n1 == n / 256 && n2 == n1 / 256 && n3 == n2 / 256 && m1 == m / 256 && m2 == m1 / 256 && m3 == m2 / 256
    requires n % 256 == m % 256 && n1 % 256 == m1 % 256 && n2 % 256 == m2 % 256 && n3 % 256 == m3 % 256
    ensures Low4(m) == Low4(n)
  {
  }

  lemma Digit(high: nat, m: nat, n: nat)
    requires n == 256 * high + m
    ensures n % 256 == m % 256 && n / 256 == high + m / 256
  {
  }

  lemma Unroll4(n: nat, size: nat)
    ensures BigEndian(n, size + 4) == BigEndian(n / 256 / 256 / 256 / 256, size) + Low4(n)
  {
    assert BigEndian(n, size + 4) == BigEndian(n / 256, size + 3) + [(n % 256) as byte];
    assert BigEndian(n / 256, size + 3) == BigEndian(n / 256 / 256, size + 2) + [(n / 256 % 256) as byte];
    assert BigEndian(n / 256 / 256, size + 2)
      == BigEndian(n / 256 / 256 / 256, size + 1) + [(n / 256 / 256 % 256) as byte];
    assert BigEndian(n / 256 / 256 / 256, size + 1)
      == BigEndian(n / 256 / 256 / 256 / 256, size) + [(n / 256 / 256 / 256 % 256) as byte];
  }

  lemma NoDigits(n: nat)
    requires n < UINT_MAX_PLUS_1
    requires n % 256 == 0 && n / 256 % 256 == 0 && n / 256 / 256 % 256 == 0 && n / 256 / 256 / 256 % 256 == 0
    ensures n == 0
  {
    var a := n / 256;
    var b := a / 256;
    var c := b / 256;
    assert n == 256 * a && a == 256 * b && b == 256 * c;
  }

  lemma ZeroByte(k: nat)
    ensures (k % 256) as byte == 0 <==> k % 256 == 0
  {
  }

  lemma LowZero(n: nat)
    requires n < UINT_MAX_PLUS_1
    ensures Low4(n) == [0, 0, 0, 0] <==> n == 0
  {
    ZeroByte(n);
    ZeroByte(n / 256);
    ZeroByte(n / 256 / 256);
    ZeroByte(n / 256 / 256 / 256);
    if Low4(n) == [0, 0, 0, 0] {
      var low := Low4(n);
      assert low[0] == 0 && low[1] == 0 && low[2] == 0 && low[3] == 0;
      NoDigits(n);
    }
  }

  lemma BigEndianZero(n: nat)
    requires n < UINT_MAX_PLUS_1
    ensures BigEndian(n, 4) == Zeros(4) <==> n == 0
  {
    hide Low4;
    Unroll4(n, 0);
    LowZero(n);
    assert BigEndian(n / 256 / 256 / 256 / 256, 0) == [];
    assert Zeros(4) == [0, 0, 0, 0];
  }

  lemma HashExtend(m: seq<byte>, a: nat, b: nat)
    requires a <= b <= |m| && a % BLOCK_SIZE == 0
    ensures HashBlocks(H0, m[..b]) == HashBlocks(HashBlocks(H0, m[..a]), m[a..b])
  {
    HashConcat(H0, m[..a], m[a..b]);
    assert m[..a] + m[a..b] == m[..b];
  }

  class Sha256 {
    const block: array<byte>
    const h: array<word>
    var len: nat
    var totLen: nat
    ghost var message: seq<byte>

    ghost predicate Valid()
      reads this, block, h
    {
      && block.Length == 2 * BLOCK_SIZE && h.Length == 8
      && len < BLOCK_SIZE && len <= |message| && (|message| - len) % BLOCK_SIZE == 0
      && totLen == (|message| - len) % UINT_MAX_PLUS_1
      && h[..] == HashBlocks(H0, message[..|message| - len])
      && block[..len] == message[|message| - len..]
    }

    /** The constructor and init(). */
    constructor ()
      ensures Valid() && message == [] && fresh(block) && fresh(h)
    {
      block := new byte[2 * BLOCK_SIZE](_ => 0);
      h := new word[8](i requires 0 <= i < 8 => H0[i]);
      len, totLen, message := 0, 0, [];
      new;
      assert h[..] == H0;
    }

    /** transform: the first blockNb blocks of the message. */
    method Transform(m: seq<byte>, blockNb: nat)
      requires h.Length == 8 && BLOCK_SIZE * blockNb <= |m|
      modifies h
      ensures h[..] == HashBlocks(old(h[..]), m[..BLOCK_SIZE * blockNb])
    {
      for i := 0 to blockNb
        invariant HashBlocks(h[..], m[BLOCK_SIZE * i..BLOCK_SIZE * blockNb])
          == HashBlocks(old(h[..]), m[..BLOCK_SIZE * blockNb])
      {
        ghost var rest := m[BLOCK_SIZE * i..BLOCK_SIZE * blockNb];
        var subBlock := m[BLOCK_SIZE * i..BLOCK_SIZE * (i + 1)];
        assert rest[..64] == subBlock && rest[64..] == m[BLOCK_SIZE * (i + 1)..BLOCK_SIZE * blockNb];
        TransformBlock(subBlock);
      }
      assert m[BLOCK_SIZE * blockNb..BLOCK_SIZE * blockNb] == [];
    }

    /** The body of the loop of transform. */
    method TransformBlock(subBlock: seq<byte>)
      requires h.Length == 8 && |subBlock| == 64
      modifies h
      ensures h[..] == Compress(old(h[..]), subBlock)
    {
      hide Add, Round, Rounds, W;
      var w := Schedule(subBlock);
      var wv := RunRounds(subBlock, w);
      AddInto(wv);
    }

    /** The last loop of transform. */
    method AddInto(wv: array<word>)
      requires h.Length == 8 && wv.Length == 8 && wv != h
      modifies h
      ensures forall k :: 0 <= k < 8 ==> h[k] == Add(old(h[k]), wv[k])
    {
      hide Add;
      for j := 0 to 8
        invariant forall k :: 0 <= k < j ==> h[k] == Add(old(h[k]), wv[k])
        invariant forall k :: j <= k < 8 ==> h[k] == old(h[k])
      {
        h[j] := Add(h[j], wv[j]);
      }
    }

    /** The eight working variables. */
    static ghost predicate Holds(wv: array<word>, v: Working)
      reads wv
    {
      wv.Length == 8 && Working(wv[0], wv[1], wv[2], wv[3], wv[4], wv[5], wv[6], wv[7]) == v
    }

    /** The two loops that fill w. */
    static method Schedule(subBlock: seq<byte>) returns (w: array<word>)
      requires |subBlock| == 64
      ensures fresh(w) && w.Length == 64 && forall t :: 0 <= t < 64 ==> w[t] == W(subBlock, t)
    {
      hide Add, F3, F4, Pack32, W;
      w := new word[64](_ => 0);
      for j := 0 to 16
        invariant forall t :: 0 <= t < j ==> w[t] == W(subBlock, t)
      {
        PackIsW(subBlock, j);
        w[j] := Pack32(subBlock[4 * j], subBlock[4 * j + 1], subBlock[4 * j + 2], subBlock[4 * j + 3]);
      }
      for j := 16 to 64
        invariant forall t :: 0 <= t < j ==> w[t] == W(subBlock, t)
      {
        NextW(subBlock, j);
        w[j] := Add(Add(Add(F4(w[j - 2]), w[j - 7]), F3(w[j - 15])), w[j - 16]);
      }
    }

    /** The loops that copy the state to wv and run the 64 rounds. */
    method RunRounds(subBlock: seq<byte>, w: array<word>) returns (wv: array<word>)
      requires h.Length == 8 && |subBlock| == 64
      requires w.Length == 64 && forall t :: 0 <= t < 64 ==> w[t] == W(subBlock, t)
      ensures fresh(wv) && Holds(wv, Rounds(h[..], subBlock, 64))
    {
      hide Round, W;
      wv := new word[8](i requires 0 <= i < 8 reads this, h => h[i]);
      for j := 0 to 64
        invariant Holds(wv, Rounds(h[..], subBlock, j))
      {
        RoundStep(wv, K(j), w[j]);
      }
    }

    static method RoundStep(wv: array<word>, k: word, w: word)
      requires wv.Length == 8
      modifies wv
      ensures Holds(wv, Round(old(Working(wv[0], wv[1], wv[2], wv[3], wv[4], wv[5], wv[6], wv[7])), k, w))
    {
      hide Add, BigSigma0, BigSigma1, Ch, Maj, F1, F2;
      var t1 := Add(Add(Add(Add(wv[7], F2(wv[4])), Ch(wv[4], wv[5], wv[6])), k), w);
      var t2 := Add(F1(wv[0]), Maj(wv[0], wv[1], wv[2]));
      wv[7] := wv[6];
      wv[6] := wv[5];
      wv[5] := wv[4];
      wv[4] := Add(wv[3], t1);
      wv[3] := wv[2];
      wv[2] := wv[1];
      wv[1] := wv[0];
      wv[0] := Add(t1, t2);
    }

    /** memcpy into the block. */
    method Copy(at: nat, bytes: seq<byte>)
      requires at + |bytes| <= block.Length
      modifies block
      ensures block[..at] == old(block[..at]) && block[at..at + |bytes|] == bytes
    {
      forall k | 0 <= k < |bytes| {
        block[at + k] := bytes[k];
      }
    }

    /** update: any number of bytes that the block counter of transform can count. */
    method Update(bytes: seq<byte>)
      requires Valid() && |bytes| < 0x8000_0000
      modifies this, block, h
      ensures Valid() && message == old(message) + bytes
    {
      hide HashBlocks;
      var tmpLen := BLOCK_SIZE - len;
      var remLen := if |bytes| < tmpLen then |bytes| else tmpLen;
      Copy(len, bytes[..remLen]);
      if len + |bytes| < BLOCK_SIZE {
        message := message + bytes;
        len := len + |bytes|;
        assert message[..|message| - len] == old(message[..|message| - len]);
        assert block[..len] == message[|message| - len..];
        return;
      }
      UpdateBlocks(bytes, remLen);
    }

    /** The rest of update, once the block is full. */
    method UpdateBlocks(bytes: seq<byte>, remLen: nat)
      requires block.Length == 2 * BLOCK_SIZE && h.Length == 8 && len < BLOCK_SIZE && len <= |message|
      requires (|message| - len) % BLOCK_SIZE == 0 && totLen == (|message| - len) % UINT_MAX_PLUS_1
      requires h[..] == HashBlocks(H0, message[..|message| - len])
      requires remLen == BLOCK_SIZE - len <= |bytes|
      requires block[..BLOCK_SIZE] == message[|message| - len..] + bytes[..remLen]
      modifies this, block, h
      ensures Valid() && message == old(message) + bytes
    {
      hide HashBlocks;
      var newLen := |bytes| - remLen;
      var blockNb := newLen / BLOCK_SIZE;
      var shifted := bytes[remLen..];
      ghost var m, tot := message + bytes, |message| - len;
      Blocks(newLen);
      Counted(tot, blockNb);
      UpdatedText(message, tot, bytes, remLen, BLOCK_SIZE * blockNb, newLen % BLOCK_SIZE);
      Transform(block[..BLOCK_SIZE], 1);
      assert block[..BLOCK_SIZE][..BLOCK_SIZE * 1] == block[..BLOCK_SIZE];
      Transform(shifted, blockNb);
      Copy(0, shifted[BLOCK_SIZE * blockNb..]);
      message := m;
      len := newLen % BLOCK_SIZE;
      totLen := (totLen + (blockNb + 1) * BLOCK_SIZE) % UINT_MAX_PLUS_1;
    }

    /** final: pads the block in place, runs the last one or two blocks and writes the digest. */
    method Final(digest: array<byte>)
      requires Valid() && digest.Length == 32 && digest != block
      modifies block, h, digest
      ensures digest[..] == Bytes(HashBlocks(H0, CodePad(message)))
      ensures |message| < 0x2000_0000 ==> digest[..] == Digest(message)
    {
      hide HashBlocks, Bytes, CodePad, Digest, LowLength, ZeroBytes, Zeros, BigEndian;
      FinalLength(|message| - len, len);
      var blockNb := 1 + (if BLOCK_SIZE - 9 < len % BLOCK_SIZE then 1 else 0);
      var lenB := (totLen + len) * 8 % UINT_MAX_PLUS_1;
      var pmLen := blockNb * BLOCK_SIZE;
      FinalZeros(|message| - len, len, pmLen);
      FinalBlock(pmLen, lenB);
      FinalText(message, |message| - len, pmLen - len - 5, lenB);
      assert block[..pmLen][..BLOCK_SIZE * blockNb] == block[..pmLen];
      Transform(block[..pmLen], blockNb);
      WriteDigest(digest);
      if |message| < 0x2000_0000 { DigestOf(message); }
    }

    /** memset, the 0x80 byte and the length. */
    method FinalBlock(pmLen: nat, lenB: nat)
      requires block.Length == 2 * BLOCK_SIZE && len + 9 <= pmLen <= 2 * BLOCK_SIZE
      modifies block
      ensures block[..pmLen] == old(block[..len]) + [0x80] + Zeros(pmLen - len - 5) + BigEndian(lenB, 4)
    {
      hide BigEndian, Low4;
      forall k | len <= k < pmLen {
        block[k] := 0;
      }
      block[len] := 0x80;
      UnpackLength(lenB, pmLen - 4);
      assert block[..pmLen] == block[..len] + [0x80] + block[len + 1..pmLen - 4] + block[pmLen - 4..pmLen];
      assert block[len + 1..pmLen - 4] == Zeros(pmLen - len - 5);
    }

    /** SHA2_UNPACK32 of the length. */
    method UnpackLength(lenB: nat, at: nat)
      requires at + 4 <= block.Length
      modifies block
      ensures forall k :: 0 <= k < block.Length && !(at <= k < at + 4) ==> block[k] == old(block[k])
      ensures block[at..at + 4] == BigEndian(lenB, 4)
    {
      Unroll4(lenB, 0);
      block[at + 3] := (lenB % 256) as byte;
      block[at + 2] := (lenB / 256 % 256) as byte;
      block[at + 1] := (lenB / 256 / 256 % 256) as byte;
      block[at] := (lenB / 256 / 256 / 256 % 256) as byte;
      assert block[at..at + 4] == Low4(lenB);
    }

    /** SHA2_UNPACK32 of a word. */
    static method Unpack32(x: word, a: array<byte>, at: nat)
      requires at + 4 <= a.Length
      modifies a
      ensures a[..at] == old(a[..at]) && a[at..at + 4] == WordBytes(x)
    {
      a[at + 3] := (x & 0xFF) as byte;
      a[at + 2] := ((x >> 8) & 0xFF) as byte;
      a[at + 1] := ((x >> 16) & 0xFF) as byte;
      a[at] := (x >> 24) as byte;
    }

    /** The last loop of final. */
    method WriteDigest(digest: array<byte>)
      requires h.Length == 8 && digest.Length == 32 && digest != block
      modifies digest
      ensures digest[..] == Bytes(h[..])
    {
      hide WordBytes;
      ghost var words := h[..];
      for i := 0 to 8
        invariant h[..] == words && digest[..4 * i] == Bytes(words[..i])
      {
        ghost var was := digest[..4 * i];
        Unpack32(h[i], digest, 4 * i);
        assert digest[..4 * (i + 1)] == was + WordBytes(words[i]);
        BytesAppend(words[..i], words[i]);
        assert words[..i] + [words[i]] == words[..i + 1];
      }
      assert words[..8] == words && digest[..32] == digest[..];
    }
  }

  lemma {:induction false} BytesAppend(h: seq<word>, x: word)
    ensures Bytes(h + [x]) == Bytes(h) + WordBytes(x)
    decreases |h|
  {
    hide WordBytes;
    if h == [] {
      assert Bytes([x]) == WordBytes(x) + Bytes([x][1..]);
    } else {
      assert (h + [x])[1..] == h[1..] + [x];
      BytesAppend(h[1..], x);
    }
  }

  lemma Counted(tot: nat, blockNb: nat)
    ensures (tot % UINT_MAX_PLUS_1 + (blockNb + 1) * BLOCK_SIZE) % UINT_MAX_PLUS_1
         == (tot + BLOCK_SIZE + BLOCK_SIZE * blockNb) % UINT_MAX_PLUS_1
  {
    var q, m := tot / UINT_MAX_PLUS_1, tot % UINT_MAX_PLUS_1;
    Multiple(m + (blockNb + 1) * BLOCK_SIZE, q);
  }

  lemma Blocks(n: nat)
    ensures n == BLOCK_SIZE * (n / BLOCK_SIZE) + n % BLOCK_SIZE
  {
  }

  /** The blocks of an update, as a continuation of the message. */
  lemma UpdatedText(message: seq<byte>, tot: nat, bytes: seq<byte>, remLen: nat, blocks: nat, left: nat)
    requires tot <= |message| && tot + BLOCK_SIZE == |message| + remLen && remLen + blocks + left == |bytes|
    requires tot % BLOCK_SIZE == 0 && blocks % BLOCK_SIZE == 0
    ensures var m, shifted := message + bytes, bytes[remLen..];
      && |m| - left == tot + BLOCK_SIZE + blocks && (|m| - left) % BLOCK_SIZE == 0
      && shifted[blocks..] == m[|m| - left..]
      && HashBlocks(H0, m[..|m| - left]) ==
         HashBlocks(HashBlocks(HashBlocks(H0, message[..tot]), message[tot..] + bytes[..remLen]), shifted[..blocks])
  {
    hide HashBlocks;
    UpdatedHash(message, tot, bytes, remLen, blocks);
  }

  lemma UpdatedHash(message: seq<byte>, tot: nat, bytes: seq<byte>, remLen: nat, blocks: nat)
    requires tot <= |message| && tot + BLOCK_SIZE == |message| + remLen && remLen + blocks <= |bytes|
    requires tot % BLOCK_SIZE == 0 && blocks % BLOCK_SIZE == 0
    ensures var m, shifted, end := message + bytes, bytes[remLen..], tot + BLOCK_SIZE + blocks;
      && shifted[blocks..] == m[end..]
      && HashBlocks(H0, m[..end]) ==
         HashBlocks(HashBlocks(HashBlocks(H0, message[..tot]), message[tot..] + bytes[..remLen]), shifted[..blocks])
  {
    hide HashBlocks;
    var m, middle, end := message + bytes, tot + BLOCK_SIZE, tot + BLOCK_SIZE + blocks;
    UpdatedPieces(message, tot, bytes, remLen, blocks);
    HashExtend(m, tot, middle);
    HashExtend(m, middle, end);
  }

  lemma UpdatedPieces(message: seq<byte>, tot: nat, bytes: seq<byte>, remLen: nat, blocks: nat)
    requires tot <= |message| && tot + BLOCK_SIZE == |message| + remLen && remLen + blocks <= |bytes|
    ensures var m, middle, shifted := message + bytes, tot + BLOCK_SIZE, bytes[remLen..];
      && m[..tot] == message[..tot] && m[tot..middle] == message[tot..] + bytes[..remLen]
      && m[middle..middle + blocks] == shifted[..blocks] && m[middle + blocks..] == shifted[blocks..]
  {
  }

  /** The 32-bit length field, from the counters. */
  lemma FinalLength(tot: nat, len: nat)
    ensures (tot % UINT_MAX_PLUS_1 + len) * 8 % UINT_MAX_PLUS_1 == LowLength(tot + len)
  {
    var q, m := tot / UINT_MAX_PLUS_1, tot % UINT_MAX_PLUS_1;
    assert 8 * (tot + len) == (m + len) * 8 + UINT_MAX_PLUS_1 * (8 * q);
    Multiple((m + len) * 8, 8 * q);
  }

  lemma Multiple(a: nat, k: nat)
    ensures (a + UINT_MAX_PLUS_1 * k) % UINT_MAX_PLUS_1 == a % UINT_MAX_PLUS_1
  {
  }

  lemma FinalZeros(tot: nat, len: nat, pmLen: nat)
    requires len < BLOCK_SIZE && tot % BLOCK_SIZE == 0
    requires pmLen == BLOCK_SIZE * (1 + (if BLOCK_SIZE - 9 < len % BLOCK_SIZE then 1 else 0))
    ensures ZeroBytes(tot + len) + 4 == pmLen - len - 5 && pmLen <= 2 * BLOCK_SIZE
  {
    var q := tot / BLOCK_SIZE;
    assert tot == BLOCK_SIZE * q;
  }

  /** The padded blocks, as a continuation of the message. */
  lemma FinalText(message: seq<byte>, tot: nat, zeros: nat, length: nat)
    requires tot <= |message| && tot % BLOCK_SIZE == 0
    requires zeros == ZeroBytes(|message|) + 4 && length == LowLength(|message|)
    ensures HashBlocks(H0, CodePad(message))
         == HashBlocks(HashBlocks(H0, message[..tot]), message[tot..] + [0x80] + Zeros(zeros) + BigEndian(length, 4))
  {
    PadParts(message, zeros, length);
    hide HashBlocks, BigEndian, Zeros, ZeroBytes, CodePad, LowLength;
    FinalJoin(message[..tot], message[tot..], Zeros(zeros), BigEndian(length, 4));
    assert message == message[..tot] + message[tot..];
  }

  lemma PadParts(message: seq<byte>, zeros: nat, length: nat)
    requires zeros == ZeroBytes(|message|) + 4 && length == LowLength(|message|)
    ensures CodePad(message) == message + [0x80] + Zeros(zeros) + BigEndian(length, 4)
  {
    hide ZeroBytes, Zeros, BigEndian, LowLength;
  }

  lemma FinalJoin(p: seq<byte>, q: seq<byte>, z: seq<byte>, b: seq<byte>)
    requires |p| % BLOCK_SIZE == 0
    ensures HashBlocks(H0, p + q + [0x80] + z + b) == HashBlocks(HashBlocks(H0, p), q + [0x80] + z + b)
  {
    hide HashBlocks;
    Regroup(p, q, [0x80], z, b);
    HashConcat(H0, p, q + [0x80] + z + b);
  }

  lemma Regroup(p: seq<byte>, q: seq<byte>, a: seq<byte>, z: seq<byte>, b: seq<byte>)
    ensures p + q + a + z + b == p + (q + a + z + b)
  {
  }

  function Concat(parts: seq<seq<byte>>): seq<byte> {
    if parts == [] then [] else parts[0] + Concat(parts[1..])
  }

  /** Any sequence of updates, then final: the digest of the bytes put together. */
  method HashParts(parts: seq<seq<byte>>) returns (digest: array<byte>)
    requires forall k :: 0 <= k < |parts| ==> |parts[k]| < 0x8000_0000
    ensures digest[..] == Bytes(HashBlocks(H0, CodePad(Concat(parts))))
    ensures |Concat(parts)| < 0x2000_0000 ==> digest[..] == Digest(Concat(parts))
  {
    hide HashBlocks, Bytes, CodePad, Digest;
    var ctx := new Sha256();
    for i := 0 to |parts|
      invariant ctx.Valid() && fresh(ctx) && fresh(ctx.block) && fresh(ctx.h)
      invariant ctx.message + Concat(parts[i..]) == Concat(parts)
    {
      assert parts[i..][0] == parts[i] && parts[i..][1..] == parts[i + 1..];
      ctx.Update(parts[i]);
    }
    assert ctx.message == Concat(parts);
    digest := new byte[32](_ => 0);
    ctx.Final(digest);
  }
}
