/** SHA-256 as FIPS 180-4 defines it, on words of 32 bits kept least significant bit first. */
module Sha256Spec {
  import M = Montgomery
  import opened Numerals

  type Word32 = w: seq<bool> | |w| == 32 witness seq(32, _ => false)

  // ---------------------------------------------------------------- section 4.1.2

  function Rotr(x: Word32, n: nat): (r: Word32)
    ensures forall i: nat :: i < 32 ==> r[i] == x[(i + n) % 32]
  {
    seq(32, i requires 0 <= i < 32 => x[(i + n) % 32])
  }

  function Shr(x: Word32, n: nat): (r: Word32)
    ensures forall i: nat :: i < 32 ==> r[i] == (i + n < 32 && x[i + n])
  {
    seq(32, i requires 0 <= i < 32 => i + n < 32 && x[i + n])
  }

  function Xor(x: seq<bool>, y: seq<bool>): (r: seq<bool>)
    requires |x| == |y|
    ensures |r| == |x| && forall i: nat :: i < |x| ==> r[i] == (x[i] != y[i])
  {
    seq(|x|, i requires 0 <= i < |x| => x[i] != y[i])
  }

  function Ch(x: seq<bool>, y: seq<bool>, z: seq<bool>): (r: seq<bool>)
    requires |x| == |y| == |z|
    ensures |r| == |x| && forall i: nat :: i < |x| ==> r[i] == ((x[i] && y[i]) != (!x[i] && z[i]))
  {
    seq(|x|, i requires 0 <= i < |x| => (x[i] && y[i]) != (!x[i] && z[i]))
  }

  function Maj(x: seq<bool>, y: seq<bool>, z: seq<bool>): (r: seq<bool>)
    requires |x| == |y| == |z|
    ensures |r| == |x| && forall i: nat :: i < |x| ==> r[i] == (((x[i] && y[i]) != (x[i] && z[i])) != (y[i] && z[i]))
  {
    seq(|x|, i requires 0 <= i < |x| => ((x[i] && y[i]) != (x[i] && z[i])) != (y[i] && z[i]))
  }

  function BigSigma0(x: Word32): Word32 { Xor(Xor(Rotr(x, 2), Rotr(x, 13)), Rotr(x, 22)) }

  function BigSigma1(x: Word32): Word32 { Xor(Xor(Rotr(x, 6), Rotr(x, 11)), Rotr(x, 25)) }

  function SmallSigma0(x: Word32): Word32 { Xor(Xor(Rotr(x, 7), Rotr(x, 18)), Shr(x, 3)) }

  function SmallSigma1(x: Word32): Word32 { Xor(Xor(Rotr(x, 17), Rotr(x, 19)), Shr(x, 10)) }

  /** Addition modulo `2^32`. */
  function Plus(x: Word32, y: Word32): Word32 {
    Bits(32, Number(x) + Number(y))
  }

  // ---------------------------------------------------------------- sections 4.2.2 and 5.3.3

  /** The round constants, eight to a row. */
  const K0: seq<nat> := [0x428a2f98, 0x71374491, 0xb5c0fbcf, 0xe9b5dba5, 0x3956c25b, 0x59f111f1, 0x923f82a4, 0xab1c5ed5]
  const K1: seq<nat> := [0xd807aa98, 0x12835b01, 0x243185be, 0x550c7dc3, 0x72be5d74, 0x80deb1fe, 0x9bdc06a7, 0xc19bf174]
  const K2: seq<nat> := [0xe49b69c1, 0xefbe4786, 0x0fc19dc6, 0x240ca1cc, 0x2de92c6f, 0x4a7484aa, 0x5cb0a9dc, 0x76f988da]
  const K3: seq<nat> := [0x983e5152, 0xa831c66d, 0xb00327c8, 0xbf597fc7, 0xc6e00bf3, 0xd5a79147, 0x06ca6351, 0x14292967]
  const K4: seq<nat> := [0x27b70a85, 0x2e1b2138, 0x4d2c6dfc, 0x53380d13, 0x650a7354, 0x766a0abb, 0x81c2c92e, 0x92722c85]
  const K5: seq<nat> := [0xa2bfe8a1, 0xa81a664b, 0xc24b8b70, 0xc76c51a3, 0xd192e819, 0xd6990624, 0xf40e3585, 0x106aa070]
  const K6: seq<nat> := [0x19a4c116, 0x1e376c08, 0x2748774c, 0x34b0bcb5, 0x391c0cb3, 0x4ed8aa4a, 0x5b9cca4f, 0x682e6ff3]
  const K7: seq<nat> := [0x748f82ee, 0x78a5636f, 0x84c87814, 0x8cc70208, 0x90befffa, 0xa4506ceb, 0xbef9a3f7, 0xc67178f2]

  function RoundConstant(t: nat): (k: nat)
    requires t < 64
    ensures k < 0x1_0000_0000
  {
    if t < 8 then K0[t] else if t < 16 then K1[t - 8] else if t < 24 then K2[t - 16] else if t < 32 then K3[t - 24]
    else if t < 40 then K4[t - 32] else if t < 48 then K5[t - 40] else if t < 56 then K6[t - 48] else K7[t - 56]
  }

  const INITIAL_STATE: seq<nat> := [
    0x6a09e667, 0xbb67ae85, 0x3c6ef372, 0xa54ff53a, 0x510e527f, 0x9b05688c, 0x1f83d9ab, 0x5be0cd19
  ]

  // ---------------------------------------------------------------- section 6.2.2

  datatype State = State(a: Word32, b: Word32, c: Word32, d: Word32, e: Word32, f: Word32, g: Word32, h: Word32)

  /** The words of a state, in order. */
  ghost function WordsOf(s: State): seq<Word32> {
    [s.a, s.b, s.c, s.d, s.e, s.f, s.g, s.h]
  }

  /** The message schedule. */
  function Schedule(block: seq<Word32>, t: nat): Word32
    requires |block| == 16
  {
    if t < 16 then block[t]
    else
      Plus(Plus(Plus(SmallSigma1(Schedule(block, t - 2)), Schedule(block, t - 7)),
                SmallSigma0(Schedule(block, t - 15))), Schedule(block, t - 16))
  }

  function Round(s: State, k: Word32, w: Word32): State {
    var t1 := Plus(Plus(Plus(Plus(s.h, BigSigma1(s.e)), Ch(s.e, s.f, s.g)), k), w);
    var t2 := Plus(BigSigma0(s.a), Maj(s.a, s.b, s.c));
    State(Plus(t1, t2), s.a, s.b, s.c, Plus(s.d, t1), s.e, s.f, s.g)
  }

  function Rounds(s: State, block: seq<Word32>, t: nat): State
    requires |block| == 16 && t <= 64
  {
    if t == 0 then s else Round(Rounds(s, block, t - 1), Bits(32, RoundConstant(t - 1)), Schedule(block, t - 1))
  }

  function Compress(s: State, block: seq<Word32>): State
    requires |block| == 16
  {
    var r := Rounds(s, block, 64);
    State(Plus(r.a, s.a), Plus(r.b, s.b), Plus(r.c, s.c), Plus(r.d, s.d),
          Plus(r.e, s.e), Plus(r.f, s.f), Plus(r.g, s.g), Plus(r.h, s.h))
  }

  function InitialState(): State {
    State(Bits(32, INITIAL_STATE[0]), Bits(32, INITIAL_STATE[1]), Bits(32, INITIAL_STATE[2]), Bits(32, INITIAL_STATE[3]),
          Bits(32, INITIAL_STATE[4]), Bits(32, INITIAL_STATE[5]), Bits(32, INITIAL_STATE[6]), Bits(32, INITIAL_STATE[7]))
  }

  // ---------------------------------------------------------------- sections 5.1.1, 5.2.1 and 6.2

  /** The number of zero bits of the padding: the smallest that fills the last block. */
  function ZeroBits(length: nat): nat {
    (447 - length % 512) % 512
  }

  function Reversed(bits: seq<bool>): (r: seq<bool>)
    ensures |r| == |bits| && forall i: nat :: i < |bits| ==> r[i] == bits[|bits| - 1 - i]
  {
    seq(|bits|, i requires 0 <= i < |bits| => bits[|bits| - 1 - i])
  }

  /** The message, a one bit, the zero bits and the length in 64 bits, most significant first. */
  function Padded(message: seq<bool>): seq<bool> {
    message + [true] + seq(ZeroBits(|message|), _ => false) + Reversed(Bits(64, |message|))
  }

  /** Word `j` of block `i`: 32 stream bits, most significant first. */
  function BlockWord(stream: seq<bool>, i: nat, j: nat): Word32
    requires j < 16 && 512 * i + 512 <= |stream|
  {
    Reversed(stream[512 * i + 32 * j..512 * i + 32 * j + 32])
  }

  function Block(stream: seq<bool>, i: nat): (block: seq<Word32>)
    requires 512 * i + 512 <= |stream|
    ensures |block| == 16 && forall j: nat :: j < 16 ==> block[j] == BlockWord(stream, i, j)
  {
    seq(16, j requires 0 <= j < 16 => BlockWord(stream, i, j))
  }

  /** The chaining value after the first `n` blocks. */
  function Chained(stream: seq<bool>, n: nat): State
    requires 512 * n <= |stream|
  {
    if n == 0 then InitialState() else Compress(Chained(stream, n - 1), Block(stream, n - 1))
  }

  function Output(s: State): seq<bool> {
    Reversed(s.a) + Reversed(s.b) + Reversed(s.c) + Reversed(s.d)
    + Reversed(s.e) + Reversed(s.f) + Reversed(s.g) + Reversed(s.h)
  }

  lemma {:induction false} PaddedLength(message: seq<bool>)
    ensures |Padded(message)| % 512 == 0
  {
    var l := |message|;
    var q, r := l / 512, l % 512;
    assert l == q * 512 + r;
    if r <= 447 {
      M.ModUnique(447 - r, 0, 447 - r, 512);
      M.ModUnique(|Padded(message)|, q + 1, 0, 512);
    } else {
      M.ModUnique(447 - r, -1, 959 - r, 512);
      M.ModUnique(|Padded(message)|, q + 2, 0, 512);
    }
  }

  /** The digest of a message shorter than `2^64` bits, as a stream of 256 bits. */
  function Hash(message: seq<bool>): seq<bool> {
    PaddedLength(message);
    var stream := Padded(message);
    Output(Chained(stream, |stream| / 512))
  }
}
