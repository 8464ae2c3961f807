/**
 * `derive_key`: HKDF-SHA256 (RFC 5869) written as a loop over stdlib HMAC. The
 * HMAC itself is a parameter; what matters here is the expand loop.
 */
module KeyDerivation {

  type byte = bv8

  const HASH_LEN := 32

  type Digest = d: seq<byte> | |d| == HASH_LEN witness seq(HASH_LEN, _ => 0)

  /** `hmac.new(key, message, sha256).digest()` */
  type Hmac = (seq<byte>, seq<byte>) -> Digest

  /** `ValueError`: `bytes([counter])` beyond 255. */
  datatype Derived = Key(bytes: seq<byte>) | ValueError

  /** Section 2.2: extract, with the fixed salt as HMAC key. */
  function Extract(hmac: Hmac, salt: seq<byte>, material: seq<byte>): Digest {
    hmac(salt, material)
  }

  /** Section 2.3: T(0) is empty, T(i) = HMAC(PRK, T(i-1) | info | i). */
  function T(hmac: Hmac, prk: seq<byte>, info: seq<byte>, i: nat): seq<byte>
    requires i <= 255
  {
    if i == 0 then [] else hmac(prk, T(hmac, prk, info, i - 1) + info + [i as byte])
  }

  /** T(1) | T(2) | ... | T(n) */
  function Blocks(hmac: Hmac, prk: seq<byte>, info: seq<byte>, n: nat): (okm: seq<byte>)
    requires n <= 255
    ensures |okm| == n * HASH_LEN
  {
    if n == 0 then [] else Blocks(hmac, prk, info, n - 1) + T(hmac, prk, info, n)
  }

  /** The number of blocks RFC 5869 asks for. */
  function BlockCount(length: int): nat {
    if length <= 0 then 0 else (length + HASH_LEN - 1) / HASH_LEN
  }

  /** `okm[:length]`; Python counts a negative bound from the end, here of an empty string. */
  function Take(okm: seq<byte>, length: int): seq<byte> {
    if length <= 0 then [] else if length <= |okm| then okm[..length] else okm
  }

  lemma {:induction false} BlocksExtend(hmac: Hmac, prk: seq<byte>, info: seq<byte>, n: nat, m: nat)
    requires n <= m <= 255
    ensures Blocks(hmac, prk, info, n) <= Blocks(hmac, prk, info, m)
    decreases m
  {
    if n < m {
      BlocksExtend(hmac, prk, info, n, m - 1);
    }
  }

  /** The output keying material of section 2.3, defined up to 255 blocks. */
  function Okm(hmac: Hmac, prk: seq<byte>, info: seq<byte>, length: int): seq<byte>
    requires length <= 255 * HASH_LEN
  {
    Take(Blocks(hmac, prk, info, BlockCount(length)), length)
  }

  lemma BlocksStart(hmac: Hmac, prk: seq<byte>, info: seq<byte>)
    ensures T(hmac, prk, info, 0) == [] && Blocks(hmac, prk, info, 0) == []
  {
  }

  lemma BlocksGrow(hmac: Hmac, prk: seq<byte>, info: seq<byte>, n: nat)
    requires 1 <= n <= 255
    ensures T(hmac, prk, info, n) == hmac(prk, T(hmac, prk, info, n - 1) + info + [n as byte])
    ensures Blocks(hmac, prk, info, n) == Blocks(hmac, prk, info, n - 1) + T(hmac, prk, info, n)
  {
  }

  /** Any number of blocks that is enough, and not one too many, is what section 2.3 asks for. */
  lemma OkmIsTaken(hmac: Hmac, prk: seq<byte>, info: seq<byte>, length: int, n: nat)
    requires n <= 255 && length <= n * HASH_LEN && (n > 0 ==> (n - 1) * HASH_LEN < length)
    ensures Take(Blocks(hmac, prk, info, n), length) == Okm(hmac, prk, info, length)
    ensures length >= 0 ==> |Take(Blocks(hmac, prk, info, n), length)| == length
  {
    hide Blocks, T;
    assert n == BlockCount(length);
  }

  /**
   * The loop computes the first `length` bytes of T(1) | T(2) | ..., and fails
   * exactly on the lengths section 2.3 excludes.
   */
  method DeriveKey(hmac: Hmac, salt: seq<byte>, material: seq<byte>, info: seq<byte>, length: int)
    returns (key: Derived)
    ensures key.ValueError? <==> length > 255 * HASH_LEN
    ensures length <= 255 * HASH_LEN ==>
              key == Key(Okm(hmac, Extract(hmac, salt, material), info, length))
    ensures key.Key? && length >= 0 ==> |key.bytes| == length
  {
    hide Blocks, T, Okm;
    var prk := hmac(salt, material);
    BlocksStart(hmac, prk, info);
    var okm, block, counter := [], [], 1;
    while |okm| < length
      invariant 1 <= counter <= 256
      invariant block == T(hmac, prk, info, counter - 1)
      invariant okm == Blocks(hmac, prk, info, counter - 1)
      invariant counter > 1 ==> (counter - 2) * HASH_LEN < length
      decreases length - |okm|
    {
      if counter > 255 {
        return ValueError;
      }
      BlocksGrow(hmac, prk, info, counter);
      block := hmac(prk, block + info + [counter as byte]);
      okm := okm + block;
      counter := counter + 1;
    }
    OkmIsTaken(hmac, prk, info, length, counter - 1);
    return Key(Take(okm, length));
  }

  /** Asking for fewer bytes gives a prefix of what asking for more gives. */
  lemma ShorterIsPrefix(hmac: Hmac, prk: seq<byte>, info: seq<byte>, short: int, long: int)
    requires short <= long <= 255 * HASH_LEN
    ensures Okm(hmac, prk, info, short) <= Okm(hmac, prk, info, long)
    ensures |Okm(hmac, prk, info, long)| == if long <= 0 then 0 else long
  {
    BlocksExtend(hmac, prk, info, BlockCount(short), BlockCount(long));
  }

  /** Byte `i` of the output depends on the block it lies in, not on the length asked for. */
  lemma ByteOfOkm(hmac: Hmac, prk: seq<byte>, info: seq<byte>, length: int, i: nat)
    requires i < length <= 255 * HASH_LEN
    ensures i < |Okm(hmac, prk, info, length)|
    ensures Okm(hmac, prk, info, length)[i] == T(hmac, prk, info, i / HASH_LEN + 1)[i % HASH_LEN]
  {
    var n := i / HASH_LEN + 1;
    BlocksExtend(hmac, prk, info, n, BlockCount(length));
    assert Blocks(hmac, prk, info, n)[i] == T(hmac, prk, info, n)[i - (n - 1) * HASH_LEN];
  }
}
