/** The salted password of SCRAM-SHA-256: xorBytes, pbkdf2F and pbkdf2SHA256 of scram.go, over
    an abstract HMAC. `Hi` is the function of section 2.2 of RFC 5802. */
module KeyDerivation {
  import opened Wrappers
  import opened Messages
  import opened Bits

  const HASH_SIZE := 32

  /** HMAC-SHA-256, SHA-256 and base64. */
  datatype Crypto = Crypto(
    hmac: (seq<byte>, seq<byte>) -> seq<byte>,
    hash: seq<byte> -> seq<byte>,
    encode: seq<byte> -> string,
    decode: string -> Option<seq<byte>>)

  /** All that is used of them: the digests have 32 bytes, and base64 can be decoded, is empty
      for the empty string only and holds no comma. */
  ghost predicate Sound(c: Crypto) {
    && (forall key, data :: |c.hmac(key, data)| == HASH_SIZE)
    && (forall data :: |c.hash(data)| == HASH_SIZE)
    && (forall data :: c.decode(c.encode(data)) == Some(data))
    && (forall data :: ',' !in c.encode(data))
    && c.encode([]) == ""
  }

  lemma EncodedIsNotEmpty(c: Crypto, data: seq<byte>)
    requires Sound(c)
    ensures c.encode(data) == "" <==> data == []
  {
    assert c.decode(c.encode(data)) == Some(data);
    assert c.decode(c.encode([])) == Some([]);
  }

  // ----- exclusive or

  function XorSeq(left: seq<byte>, right: seq<byte>): (r: seq<byte>)
    requires |left| <= |right|
    ensures |r| == |left|
  {
    seq(|left|, i requires 0 <= i < |left| => Xor(left[i], right[i]))
  }

  lemma XorSeqTwice(left: seq<byte>, right: seq<byte>)
    requires |left| == |right|
    ensures XorSeq(XorSeq(left, right), right) == left
  {
    forall i | 0 <= i < |left|
      ensures XorSeq(XorSeq(left, right), right)[i] == left[i]
    {
      XorTwice(left[i], right[i]);
    }
  }

  method XorBytes(left: seq<byte>, right: seq<byte>) returns (out: array<byte>)
    requires |left| <= |right|
    ensures fresh(out) && out[..] == XorSeq(left, right)
  {
    out := new byte[|left|];
    for i := 0 to |left|
      invariant forall k :: 0 <= k < i ==> out[k] == Xor(left[k], right[k])
    {
      out[i] := Xor(left[i], right[i]);
    }
  }

  // ----- iteration

  /** The salt and the block number, most significant byte first. */
  function Block(salt: seq<byte>, index: nat): (r: seq<byte>)
    ensures |r| == |salt| + 4
  {
    salt + [index / 0x100_0000 % 256, index / 0x1_0000 % 256, index / 0x100 % 256, index % 256]
  }

  /** U_n of RFC 5802: the n-th iterate of the HMAC. */
  function U(c: Crypto, password: seq<byte>, block: seq<byte>, n: nat): seq<byte>
    requires n > 0
    decreases n
  {
    c.hmac(password, if n == 1 then block else U(c, password, block, n - 1))
  }

  /** Hi(str, salt, n) = U_1 XOR U_2 XOR ... XOR U_n */
  ghost function Hi(c: Crypto, password: seq<byte>, block: seq<byte>, n: nat): (r: seq<byte>)
    requires n > 0 && Sound(c)
    ensures |r| == HASH_SIZE
    decreases n
  {
    var last := U(c, password, block, n);
    if n == 1 then last else XorSeq(Hi(c, password, block, n - 1), last)
  }

  lemma XorSeqAssoc(a: seq<byte>, b: seq<byte>, c: seq<byte>)
    requires |a| == |b| == |c|
    ensures XorSeq(XorSeq(a, b), c) == XorSeq(a, XorSeq(b, c))
  {
    forall i | 0 <= i < |a|
      ensures XorSeq(XorSeq(a, b), c)[i] == XorSeq(a, XorSeq(b, c))[i]
    {
      XorAssoc(a[i], b[i], c[i]);
    }
  }

  /** u_1, ..., u_n: each is the HMAC of the one before, and u_1 that of the first block. */
  ghost predicate AreIterates(c: Crypto, password: seq<byte>, block: seq<byte>, us: seq<seq<byte>>) {
    && us != [] && us[0] == c.hmac(password, block)
    && forall k :: 0 < k < |us| ==> us[k] == c.hmac(password, us[k - 1])
  }

  /** Their exclusive or, from the last one back. */
  function XorAll(us: seq<seq<byte>>): (r: seq<byte>)
    requires us != [] && forall k :: 0 <= k < |us| ==> |us[k]| == HASH_SIZE
    ensures |r| == HASH_SIZE
  {
    if |us| == 1 then us[0] else XorSeq(us[0], XorAll(us[1..]))
  }

  lemma {:induction false} IteratesAre(c: Crypto, password: seq<byte>, block: seq<byte>, us: seq<seq<byte>>, k: nat)
    requires AreIterates(c, password, block, us) && k < |us|
    ensures us[k] == U(c, password, block, k + 1)
    decreases k
  {
    if k > 0 {
      IteratesAre(c, password, block, us, k - 1);
    }
  }

  lemma {:induction false} XorAllSnoc(us: seq<seq<byte>>, u: seq<byte>)
    requires us != [] && |u| == HASH_SIZE && forall k :: 0 <= k < |us| ==> |us[k]| == HASH_SIZE
    ensures XorAll(us + [u]) == XorSeq(XorAll(us), u)
  {
    assert (us + [u])[1..] == us[1..] + [u];
    if |us| == 1 {
      assert us[1..] + [u] == [u];
    } else {
      XorAllSnoc(us[1..], u);
      XorSeqAssoc(us[0], XorAll(us[1..]), u);
    }
  }

  lemma FrontIterates(c: Crypto, password: seq<byte>, block: seq<byte>, us: seq<seq<byte>>, n: nat)
    requires AreIterates(c, password, block, us) && 0 < n <= |us|
    ensures AreIterates(c, password, block, us[..n])
  {
    var front := us[..n];
    assert forall k :: 0 <= k < n ==> front[k] == us[k];
  }

  lemma IteratesHaveSize(c: Crypto, password: seq<byte>, block: seq<byte>, us: seq<seq<byte>>)
    requires Sound(c) && AreIterates(c, password, block, us)
    ensures us != [] && forall k :: 0 <= k < |us| ==> |us[k]| == HASH_SIZE
  {
    forall k | 0 <= k < |us|
      ensures |us[k]| == HASH_SIZE
    {
      if k > 0 {
        assert us[k] == c.hmac(password, us[k - 1]);
      }
    }
  }

  /** Section 2.2 of RFC 5802: Hi is the exclusive or of the iterates. */
  lemma {:induction false} HiIsXorOfIterates(c: Crypto, password: seq<byte>, block: seq<byte>, us: seq<seq<byte>>)
    requires Sound(c) && AreIterates(c, password, block, us)
    ensures (forall k :: 0 <= k < |us| ==> |us[k]| == HASH_SIZE) && Hi(c, password, block, |us|) == XorAll(us)
    decreases |us|
  {
    hide XorSeq, AreIterates;
    var n := |us| - 1;
    IteratesHaveSize(c, password, block, us);
    IteratesAre(c, password, block, us, n);
    if n > 0 {
      var front := us[..n];
      FrontIterates(c, password, block, us, n);
      HiIsXorOfIterates(c, password, block, front);
      XorAllSnoc(front, us[n]);
      assert us == front + [us[n]];
    }
  }

  /** INT(index) of RFC 5802 stands behind the salt, most significant byte first. */
  lemma BlockNumber(salt: seq<byte>, a: byte, b: byte, c: byte, d: byte)
    ensures Block(salt, 0x100_0000 * a + 0x1_0000 * b + 0x100 * c + d) == salt + [a, b, c, d]
  {
    var index := 0x100_0000 * a + 0x1_0000 * b + 0x100 * c + d;
    assert index / 0x100_0000 == a;
    assert index / 0x1_0000 == 0x100 * a + b;
    assert index / 0x100 == 0x1_0000 * a + 0x100 * b + c;
  }

  /** What the loop of pbkdf2F makes of an iteration count that is not positive. */
  function Rounds(iterations: int): (r: nat)
    ensures r > 0
  {
    if iterations < 1 then 1 else iterations
  }

  method NumberedSalt(salt: seq<byte>, blockIndex: nat) returns (block: array<byte>)
    ensures fresh(block) && block[..] == Block(salt, blockIndex)
  {
    block := new byte[|salt| + 4];
    forall k | 0 <= k < |salt| {
      block[k] := salt[k];
    }
    block[block.Length - 4] := blockIndex / 0x100_0000 % 256;
    block[block.Length - 3] := blockIndex / 0x1_0000 % 256;
    block[block.Length - 2] := blockIndex / 0x100 % 256;
    block[block.Length - 1] := blockIndex % 256;
  }

  /** out[j] ^= u[j] for all j */
  method XorInto(out: array<byte>, u: seq<byte>)
    requires out.Length <= |u|
    modifies out
    ensures out[..] == XorSeq(old(out[..]), u)
  {
    for j := 0 to out.Length
      invariant forall k :: 0 <= k < j ==> out[k] == Xor(old(out[k]), u[k])
      invariant forall k :: j <= k < out.Length ==> out[k] == old(out[k])
    {
      out[j] := Xor(out[j], u[j]);
    }
  }

  method CopyOf(u: seq<byte>) returns (out: array<byte>)
    ensures fresh(out) && out[..] == u
  {
    out := new byte[|u|];
    forall k | 0 <= k < |u| {
      out[k] := u[k];
    }
  }

  lemma HiNext(c: Crypto, password: seq<byte>, block: seq<byte>, n: nat)
    requires n > 0 && Sound(c)
    ensures U(c, password, block, n + 1) == c.hmac(password, U(c, password, block, n))
    ensures |U(c, password, block, n + 1)| == HASH_SIZE
    ensures Hi(c, password, block, n + 1) == XorSeq(Hi(c, password, block, n), U(c, password, block, n + 1))
  {
  }

  method Pbkdf2F(c: Crypto, password: seq<byte>, salt: seq<byte>, iterations: int, blockIndex: nat)
    returns (out: array<byte>)
    requires Sound(c)
    ensures fresh(out) && out[..] == Hi(c, password, Block(salt, blockIndex), Rounds(iterations))
  {
    var block := NumberedSalt(salt, blockIndex);
    ghost var first := block[..];
    var u := c.hmac(password, block[..]);
    out := CopyOf(u);
    assert |u| == HASH_SIZE;
    hide U, Hi, Sound, XorSeq, Block;
    var i := 1;
    while i < iterations
      invariant 1 <= i <= Rounds(iterations) && fresh(out)
      invariant u == U(c, password, first, i)
      invariant out[..] == Hi(c, password, first, i)
    {
      HiNext(c, password, first, i);
      u := c.hmac(password, u);
      XorInto(out, u);
      i := i + 1;
    }
  }

  /** The blocks of the derived key, from block `i` on. */
  ghost function Blocks(c: Crypto, password: seq<byte>, salt: seq<byte>, rounds: nat, i: nat, count: nat): (r: seq<byte>)
    requires rounds > 0 && Sound(c)
    ensures |r| == HASH_SIZE * count
    decreases count
  {
    if count == 0 then []
    else Hi(c, password, Block(salt, i), rounds) + Blocks(c, password, salt, rounds, i + 1, count - 1)
  }

  lemma {:induction false} BlocksSnoc(c: Crypto, password: seq<byte>, salt: seq<byte>, rounds: nat, i: nat, count: nat)
    requires rounds > 0 && Sound(c)
    ensures Blocks(c, password, salt, rounds, i, count + 1)
         == Blocks(c, password, salt, rounds, i, count) + Hi(c, password, Block(salt, i + count), rounds)
    decreases count
  {
    if count > 0 {
      BlocksSnoc(c, password, salt, rounds, i + 1, count - 1);
      Assoc(Hi(c, password, Block(salt, i), rounds), Blocks(c, password, salt, rounds, i + 1, count - 1),
                  Hi(c, password, Block(salt, i + count), rounds));
    } else {
      assert Blocks(c, password, salt, rounds, i + 1, 0) == [];
    }
  }

  method Pbkdf2Sha256(c: Crypto, password: seq<byte>, salt: seq<byte>, iterations: int, keyLen: nat)
    returns (key: seq<byte>)
    requires Sound(c)
    ensures var count := (keyLen + HASH_SIZE - 1) / HASH_SIZE;
      key == Blocks(c, password, salt, Rounds(iterations), 1, count)[..keyLen]
  {
    hide Hi, Sound, Block, Rounds;
    var blockCount := (keyLen + HASH_SIZE - 1) / HASH_SIZE;
    ghost var rounds := Rounds(iterations);
    key := [];
    var i := 1;
    while i <= blockCount
      invariant 1 <= i <= blockCount + 1
      invariant key == Blocks(c, password, salt, rounds, 1, i - 1)
    {
      var t := Pbkdf2F(c, password, salt, iterations, i);
      BlocksSnoc(c, password, salt, rounds, 1, i - 1);
      key := key + t[..];
      i := i + 1;
    }
    assert |key| == HASH_SIZE * blockCount >= keyLen;
    key := key[..keyLen];
  }

  /** The salted password is the one block that 32 bytes need. */
  ghost function Salted(c: Crypto, password: seq<byte>, salt: seq<byte>, iterations: int): (r: seq<byte>)
    requires Sound(c)
    ensures |r| == HASH_SIZE
  {
    Hi(c, password, Block(salt, 1), Rounds(iterations))
  }

  lemma OneBlockIsSalted(c: Crypto, password: seq<byte>, salt: seq<byte>, iterations: int)
    requires Sound(c)
    ensures Blocks(c, password, salt, Rounds(iterations), 1, 1)[..HASH_SIZE] == Salted(c, password, salt, iterations)
  {
    var one := Blocks(c, password, salt, Rounds(iterations), 1, 1);
    assert one == Salted(c, password, salt, iterations) + [];
  }
}
