/** Cipher block chaining in place (`pkg/cryptography/cbc.go`, section 6.2 of NIST SP 800-38A) over
    an abstract block cipher. */
module Cbc {
  import opened Bytes

  datatype BlockCipher = BlockCipher(
    size: nat,
    encrypt: seq<octet> -> seq<octet>,
    decrypt: seq<octet> -> seq<octet>)

  /** Both directions map blocks to blocks. */
  ghost predicate BlockToBlock(c: BlockCipher) {
    && c.size > 0
    && (forall x :: |x| == c.size ==> |c.encrypt(x)| == c.size)
    && (forall x :: |x| == c.size ==> |c.decrypt(x)| == c.size)
  }

  ghost predicate DecryptUndoes(c: BlockCipher) {
    BlockToBlock(c) && forall x {:trigger c.decrypt(c.encrypt(x))} :: |x| == c.size ==> c.decrypt(c.encrypt(x)) == x
  }

  ghost predicate EncryptUndoes(c: BlockCipher) {
    BlockToBlock(c) && forall x {:trigger c.encrypt(c.decrypt(x))} :: |x| == c.size ==> c.encrypt(c.decrypt(x)) == x
  }

  // ---------------------------------------------------------------- block arithmetic

  /** `n` is a whole number of blocks. */
  predicate Whole(n: nat, size: nat)
    requires size > 0
  {
    n == 0 || (n >= size && Whole(n - size, size))
  }

  lemma {:induction false} WholeIff(n: nat, size: nat)
    requires size > 0
    ensures Whole(n, size) <==> n % size == 0
  {
    if n >= size {
      WholeIff(n - size, size);
      OneBlockLess(n, size);
    }
  }

  lemma Distribute(q: int, d: int)
    ensures (q + 1) * d == q * d + d
  {
  }

  lemma AtLeast(q: int, d: int)
    requires q >= 1 && d > 0
    ensures q * d >= d
  {
  }

  lemma Difference(a: int, b: int, d: int)
    ensures (a - b) * d == a * d - b * d
  {
  }

  lemma OneBlockLess(n: nat, size: nat)
    requires size > 0 && n >= size
    ensures (n - size) % size == n % size
  {
    var q, r := n / size, n % size;
    var q', r' := (n - size) / size, (n - size) % size;
    assert n == q * size + r && n - size == q' * size + r';
    Distribute(q', size);
    Difference(q, q' + 1, size);
    if q > q' + 1 { AtLeast(q - (q' + 1), size); }
    if q < q' + 1 { Difference(q' + 1, q, size); AtLeast(q' + 1 - q, size); }
  }

  function XorBytes(a: seq<octet>, b: seq<octet>): (r: seq<octet>)
    requires |a| == |b|
    ensures |r| == |a|
  {
    seq(|a|, i requires 0 <= i < |a| => Xor(a[i], b[i]))
  }

  lemma XorBytesTwice(a: seq<octet>, b: seq<octet>)
    requires |a| == |b|
    ensures XorBytes(XorBytes(a, b), b) == a
  {
    forall i | 0 <= i < |a|
      ensures XorBytes(XorBytes(a, b), b)[i] == a[i]
    {
      XorTwice(a[i], b[i]);
    }
  }

  // ---------------------------------------------------------------- reference definition

  /** The block that the block at offset `n` is chained to. */
  function Previous(iv: seq<octet>, ciphertext: seq<octet>, n: nat, size: nat): (r: seq<octet>)
    requires |iv| == size && n <= |ciphertext| && (n > 0 ==> n >= size)
    ensures |r| == size
  {
    if n == 0 then iv else ciphertext[n - size..n]
  }

  ghost function Encrypted(c: BlockCipher, iv: seq<octet>, p: seq<octet>): (r: seq<octet>)
    requires BlockToBlock(c) && |iv| == c.size && Whole(|p|, c.size)
    ensures |r| == |p|
    decreases |p|
  {
    if p == [] then []
    else
      var n := |p| - c.size;
      var init := Encrypted(c, iv, p[..n]);
      init + c.encrypt(XorBytes(p[n..], Previous(iv, init, n, c.size)))
  }

  ghost function Decrypted(c: BlockCipher, iv: seq<octet>, x: seq<octet>): (r: seq<octet>)
    requires BlockToBlock(c) && |iv| == c.size && Whole(|x|, c.size)
    ensures |r| == |x|
    decreases |x|
  {
    if x == [] then []
    else
      var n := |x| - c.size;
      Decrypted(c, iv, x[..n]) + XorBytes(c.decrypt(x[n..]), Previous(iv, x, n, c.size))
  }

  lemma EncryptedSnoc(c: BlockCipher, iv: seq<octet>, p: seq<octet>, block: seq<octet>)
    requires BlockToBlock(c) && |iv| == c.size && Whole(|p|, c.size) && |block| == c.size
    ensures Whole(|p + block|, c.size)
    ensures var done := Encrypted(c, iv, p);
            Encrypted(c, iv, p + block) == done + c.encrypt(XorBytes(block, Previous(iv, done, |p|, c.size)))
  {
    var q := p + block;
    assert q[..|q| - c.size] == p && q[|q| - c.size..] == block;
  }

  lemma DecryptedSnoc(c: BlockCipher, iv: seq<octet>, x: seq<octet>, block: seq<octet>)
    requires BlockToBlock(c) && |iv| == c.size && Whole(|x|, c.size) && |block| == c.size
    ensures Whole(|x + block|, c.size)
    ensures Decrypted(c, iv, x + block)
            == Decrypted(c, iv, x) + XorBytes(c.decrypt(block), Previous(iv, x, |x|, c.size))
  {
    var y := x + block;
    assert y[..|y| - c.size] == x && y[|y| - c.size..] == block;
    assert Previous(iv, y, |x|, c.size) == Previous(iv, x, |x|, c.size);
  }

  lemma {:induction false} EncryptedGrowsByOne(c: BlockCipher, iv: seq<octet>, p: seq<octet>, block: seq<octet>)
    requires BlockToBlock(c) && |iv| == c.size && Whole(|p|, c.size) && |block| == c.size
    ensures Whole(|p + block|, c.size) && Encrypted(c, iv, p) <= Encrypted(c, iv, p + block)
  {
    EncryptedSnoc(c, iv, p, block);
  }

  lemma PrefixOfLonger(a: seq<octet>, b: seq<octet>, d: seq<octet>)
    requires a <= b && b <= d
    ensures a <= d
  {
  }

  lemma {:induction false} LongerStill(c: BlockCipher, iv: seq<octet>, p: seq<octet>, q: seq<octet>, block: seq<octet>)
    requires BlockToBlock(c) && |iv| == c.size && Whole(|p|, c.size) && Whole(|q|, c.size) && |block| == c.size
    requires Encrypted(c, iv, p) <= Encrypted(c, iv, q)
    ensures Whole(|q + block|, c.size) && Encrypted(c, iv, p) <= Encrypted(c, iv, q + block)
  {
    EncryptedGrowsByOne(c, iv, q, block);
    PrefixOfLonger(Encrypted(c, iv, p), Encrypted(c, iv, q), Encrypted(c, iv, q + block));
  }

  lemma TwoParts(p: seq<octet>, i: nat, j: nat)
    requires i <= j <= |p|
    ensures p[..i] + p[i..j] == p[..j]
  {
  }

  lemma ThreeParts(p: seq<octet>, i: nat, j: nat)
    requires i <= j <= |p|
    ensures p[..i] + p[i..j] + p[j..] == p
  {
  }

  lemma SplitLast(p: seq<octet>, more: seq<octet>, n: nat)
    requires n <= |more|
    ensures p + more == p + more[..n] + more[n..]
  {
  }

  /** Encrypting more leaves what was encrypted before. */
  lemma {:induction false} EncryptedGrows(c: BlockCipher, iv: seq<octet>, p: seq<octet>, more: seq<octet>)
    requires BlockToBlock(c) && |iv| == c.size && Whole(|p|, c.size) && Whole(|more|, c.size)
    ensures Whole(|p + more|, c.size) && Encrypted(c, iv, p) <= Encrypted(c, iv, p + more)
    decreases |more|
  {
    if more == [] {
      assert p + more == p;
    } else {
      var n := |more| - c.size;
      EncryptedGrows(c, iv, p, more[..n]);
      LongerStill(c, iv, p, p + more[..n], more[n..]);
      SplitLast(p, more, n);
    }
  }

  lemma LastOf(x: seq<octet>, a: seq<octet>, b: seq<octet>, size: nat)
    requires a + b <= x && (a != [] ==> |a| >= size)
    ensures x[|a|..|a| + |b|] == b && (a != [] ==> x[|a| - size..|a|] == a[|a| - size..])
  {
    assert x[..|a| + |b|] == a + b;
    assert x[|a|..|a| + |b|] == x[..|a| + |b|][|a|..];
    if a != [] { assert x[|a| - size..|a|] == x[..|a| + |b|][|a| - size..|a|]; }
  }

  lemma WholeAtLeast(k: nat, size: nat)
    requires size > 0 && Whole(k, size) && k > 0
    ensures k >= size
  {
  }

  lemma {:induction false} EncryptedUpTo(c: BlockCipher, iv: seq<octet>, head: seq<octet>, block: seq<octet>,
                                         rest: seq<octet>)
    requires BlockToBlock(c) && |iv| == c.size
    requires Whole(|head|, c.size) && |block| == c.size && Whole(|rest|, c.size)
    ensures Whole(|head + block + rest|, c.size)
    ensures var done := Encrypted(c, iv, head);
            done + c.encrypt(XorBytes(block, Previous(iv, done, |head|, c.size)))
            <= Encrypted(c, iv, head + block + rest)
  {
    EncryptedSnoc(c, iv, head, block);
    EncryptedGrows(c, iv, head + block, rest);
  }

  /** Cipher block chaining, block by block: each ciphertext block is the encryption of the plaintext
      block combined with the ciphertext block before it, the first with the IV. */
  lemma {:induction false} ChainingLaw(c: BlockCipher, iv: seq<octet>, p: seq<octet>, k: nat)
    requires BlockToBlock(c) && |iv| == c.size && Whole(|p|, c.size) && Whole(k, c.size) && k + c.size <= |p|
    requires Whole(|p| - k - c.size, c.size)
    ensures k > 0 ==> k >= c.size
    ensures var x := Encrypted(c, iv, p);
            x[k..k + c.size] == c.encrypt(XorBytes(p[k..k + c.size], if k == 0 then iv else x[k - c.size..k]))
  {
    if k > 0 { WholeAtLeast(k, c.size); }
    EncryptedUpTo(c, iv, p[..k], p[k..k + c.size], p[k + c.size..]);
    ThreeParts(p, k, k + c.size);
    ChainedBlock(c, iv, Encrypted(c, iv, p), Encrypted(c, iv, p[..k]), p[k..k + c.size], k);
  }

  lemma ChainedBlock(c: BlockCipher, iv: seq<octet>, x: seq<octet>, done: seq<octet>, block: seq<octet>, k: nat)
    requires BlockToBlock(c) && |iv| == |block| == c.size && |done| == k && k + c.size <= |x| && (k > 0 ==> k >= c.size)
    requires done + c.encrypt(XorBytes(block, Previous(iv, done, k, c.size))) <= x
    ensures x[k..k + c.size] == c.encrypt(XorBytes(block, if k == 0 then iv else x[k - c.size..k]))
  {
    LastOf(x, done, c.encrypt(XorBytes(block, Previous(iv, done, k, c.size))), c.size);
    if k > 0 { assert done[k - c.size..] == done[k - c.size..k]; }
  }

  lemma DecryptedEncryptedSnoc(c: BlockCipher, iv: seq<octet>, head: seq<octet>, last: seq<octet>)
    requires DecryptUndoes(c) && |iv| == c.size && Whole(|head|, c.size) && |last| == c.size
    requires Decrypted(c, iv, Encrypted(c, iv, head)) == head
    ensures Whole(|head + last|, c.size)
    ensures Decrypted(c, iv, Encrypted(c, iv, head + last)) == head + last
  {
    var done := Encrypted(c, iv, head);
    var prev := Previous(iv, done, |head|, c.size);
    var mixed := XorBytes(last, prev);
    EncryptedSnoc(c, iv, head, last);
    DecryptedSnoc(c, iv, done, c.encrypt(mixed));
    XorBytesTwice(last, prev);
  }

  /** Decrypting what was encrypted under the same IV gives the plaintext. */
  lemma {:induction false} DecryptedEncrypted(c: BlockCipher, iv: seq<octet>, p: seq<octet>)
    requires DecryptUndoes(c) && |iv| == c.size && Whole(|p|, c.size)
    ensures Decrypted(c, iv, Encrypted(c, iv, p)) == p
    decreases |p|
  {
    if p != [] {
      var n := |p| - c.size;
      var head, last := p[..n], p[n..];
      assert head + last == p;
      DecryptedEncrypted(c, iv, head);
      DecryptedEncryptedSnoc(c, iv, head, last);
    }
  }

  lemma EncryptedDecryptedSnoc(c: BlockCipher, iv: seq<octet>, head: seq<octet>, last: seq<octet>)
    requires EncryptUndoes(c) && |iv| == c.size && Whole(|head|, c.size) && |last| == c.size
    requires Encrypted(c, iv, Decrypted(c, iv, head)) == head
    ensures Whole(|head + last|, c.size)
    ensures Encrypted(c, iv, Decrypted(c, iv, head + last)) == head + last
  {
    var prev := Previous(iv, head, |head|, c.size);
    DecryptedSnoc(c, iv, head, last);
    EncryptedSnoc(c, iv, Decrypted(c, iv, head), XorBytes(c.decrypt(last), prev));
    XorBytesTwice(c.decrypt(last), prev);
  }

  /** And the other way round, for a cipher that is a permutation of blocks. */
  lemma {:induction false} EncryptedDecrypted(c: BlockCipher, iv: seq<octet>, x: seq<octet>)
    requires EncryptUndoes(c) && |iv| == c.size && Whole(|x|, c.size)
    ensures Encrypted(c, iv, Decrypted(c, iv, x)) == x
    decreases |x|
  {
    if x != [] {
      var n := |x| - c.size;
      var head, last := x[..n], x[n..];
      assert head + last == x;
      EncryptedDecrypted(c, iv, head);
      EncryptedDecryptedSnoc(c, iv, head, last);
    }
  }

  // ---------------------------------------------------------------- the in-place code

  function Overwrite(s: seq<octet>, at: nat, block: seq<octet>): (r: seq<octet>)
    requires at + |block| <= |s|
    ensures |r| == |s|
  {
    s[..at] + block + s[at + |block|..]
  }

  lemma OverwriteTwice(s: seq<octet>, at: nat, a: seq<octet>, b: seq<octet>)
    requires at + |a| <= |s| && |a| == |b|
    ensures Overwrite(s, at, a)[at..at + |a|] == a
    ensures Overwrite(Overwrite(s, at, a), at, b) == Overwrite(s, at, b)
  {
  }

  lemma OverwriteSplit(s: seq<octet>, at: nat, block: seq<octet>)
    requires at + |block| <= |s|
    ensures Overwrite(s, at, block)[..at + |block|] == s[..at] + block
    ensures Overwrite(s, at, block)[at + |block|..] == s[at + |block|..]
  {
  }

  method WriteBlock(a: array<octet>, at: nat, block: seq<octet>)
    requires at + |block| <= a.Length
    modifies a
    ensures a[..] == Overwrite(old(a[..]), at, block)
  {
    for i := 0 to |block|
      invariant forall k :: 0 <= k < a.Length ==> a[k] == if at <= k < at + i then block[k - at] else old(a[k])
    {
      a[at + i] := block[i];
    }
  }

  method EncryptBlock(c: BlockCipher, buf: array<octet>, i: nat, prev: seq<octet>) returns (sealed: seq<octet>)
    requires BlockToBlock(c) && i + c.size <= buf.Length && |prev| == c.size
    modifies buf
    ensures sealed == c.encrypt(XorBytes(old(buf[..])[i..i + c.size], prev))
    ensures |sealed| == c.size && buf[..] == Overwrite(old(buf[..]), i, sealed)
  {
    ghost var s := buf[..];
    assert s[i..i + c.size] == buf[i..i + c.size];
    var chunk := XorBytes(buf[i..i + c.size], prev);
    WriteBlock(buf, i, chunk);
    OverwriteTwice(s, i, chunk, chunk);
    assert buf[i..i + c.size] == buf[..][i..i + c.size];
    sealed := c.encrypt(buf[i..i + c.size]);
    OverwriteTwice(s, i, chunk, sealed);
    WriteBlock(buf, i, sealed);
  }

  lemma EncryptBytes(pre: seq<octet>, done: seq<octet>, p: seq<octet>, k: nat, sealed: seq<octet>)
    requires |done| == k && k + |sealed| <= |p|
    ensures var s := pre + done + p[k..];
            && s[|pre| + k..|pre| + k + |sealed|] == p[k..k + |sealed|]
            && Overwrite(s, |pre| + k, sealed) == pre + (done + sealed) + p[k + |sealed|..]
  {
  }

  /** The buffer after `k` bytes of `p` have been encrypted in place behind `pre`. */
  ghost function Partial(c: BlockCipher, iv: seq<octet>, pre: seq<octet>, p: seq<octet>, k: nat): (r: seq<octet>)
    requires BlockToBlock(c) && |iv| == c.size && k <= |p| && Whole(k, c.size)
    ensures |r| == |pre| + |p|
  {
    pre + Encrypted(c, iv, p[..k]) + p[k..]
  }

  /** The block the next turn chains to. */
  ghost function Chain(c: BlockCipher, iv: seq<octet>, p: seq<octet>, k: nat): (r: seq<octet>)
    requires BlockToBlock(c) && |iv| == c.size && k <= |p| && Whole(k, c.size)
    ensures |r| == c.size
  {
    Previous(iv, Encrypted(c, iv, p[..k]), k, c.size)
  }

  lemma {:induction false} ChainStep(c: BlockCipher, iv: seq<octet>, p: seq<octet>, k: nat)
    requires BlockToBlock(c) && |iv| == c.size && Whole(k, c.size) && k + c.size <= |p|
    ensures Whole(k + c.size, c.size)
    ensures var sealed := c.encrypt(XorBytes(p[k..k + c.size], Chain(c, iv, p, k)));
            && Encrypted(c, iv, p[..k + c.size]) == Encrypted(c, iv, p[..k]) + sealed
            && Chain(c, iv, p, k + c.size) == sealed
  {
    TwoParts(p, k, k + c.size);
    EncryptedSnoc(c, iv, p[..k], p[k..k + c.size]);
  }

  lemma {:induction false} EncryptStep(c: BlockCipher, iv: seq<octet>, pre: seq<octet>, p: seq<octet>, k: nat)
    requires BlockToBlock(c) && |iv| == c.size && Whole(k, c.size) && k + c.size <= |p|
    ensures Whole(k + c.size, c.size)
    ensures var s, at := Partial(c, iv, pre, p, k), |pre| + k;
            var sealed := c.encrypt(XorBytes(s[at..at + c.size], Chain(c, iv, p, k)));
            Overwrite(s, at, sealed) == Partial(c, iv, pre, p, k + c.size) && sealed == Chain(c, iv, p, k + c.size)
  {
    ChainStep(c, iv, p, k);
    EncryptBytes(pre, Encrypted(c, iv, p[..k]), p, k, Chain(c, iv, p, k + c.size));
  }

  lemma AnotherBlock(n: nat, size: nat)
    requires size > 0 && Whole(n, size) && n > 0
    ensures n >= size && Whole(n - size, size)
  {
  }

  /** Where the encryption loop stands: `k` bytes of `p` are encrypted and whole blocks are left. */
  ghost predicate Sealing(c: BlockCipher, iv: seq<octet>, b: seq<octet>, pre: seq<octet>, p: seq<octet>, k: nat,
                          prev: seq<octet>)
    requires BlockToBlock(c) && |iv| == c.size
  {
    && k <= |p| && Whole(k, c.size) && Whole(|p| - k, c.size)
    && b == Partial(c, iv, pre, p, k) && prev == Chain(c, iv, p, k)
  }

  /** One turn of the encryption loop. */
  method EncryptTurn(c: BlockCipher, ghost iv: seq<octet>, buf: array<octet>, ghost pre: seq<octet>,
                     ghost p: seq<octet>, i: nat, ghost k: nat, prev: seq<octet>) returns (sealed: seq<octet>)
    requires BlockToBlock(c) && |iv| == c.size && Sealing(c, iv, buf[..], pre, p, k, prev)
    requires i == |pre| + k && i < buf.Length
    modifies buf
    ensures k + c.size <= |p| && Sealing(c, iv, buf[..], pre, p, k + c.size, sealed)
  {
    AnotherBlock(|p| - k, c.size);
    EncryptStep(c, iv, pre, p, k);
    sealed := EncryptBlock(c, buf, i, prev);
  }

  lemma EmptyEnds(a: seq<octet>, b: seq<octet>)
    ensures b[..0] == [] && b[0..] == b && b[..|b|] == b && b[|b|..] == []
    ensures a + [] + b == a + b && a + b + [] == a + b
  {
  }

  lemma SealingStart(c: BlockCipher, iv: seq<octet>, pre: seq<octet>, p: seq<octet>)
    requires BlockToBlock(c) && |iv| == c.size && Whole(|p|, c.size)
    ensures Sealing(c, iv, pre + p, pre, p, 0, iv)
  {
    EmptyEnds(pre, p);
    assert Encrypted(c, iv, []) == [];
  }

  lemma SealingEnd(c: BlockCipher, iv: seq<octet>, b: seq<octet>, pre: seq<octet>, p: seq<octet>, prev: seq<octet>)
    requires BlockToBlock(c) && |iv| == c.size && Sealing(c, iv, b, pre, p, |p|, prev)
    ensures Whole(|p|, c.size) && b == pre + Encrypted(c, iv, p)
  {
    EmptyEnds(pre, p);
    EmptyEnds(pre, Encrypted(c, iv, p));
  }

  method EncryptBlocks(c: BlockCipher, iv: seq<octet>, buf: array<octet>, lo: nat,
                       ghost pre: seq<octet>, ghost p: seq<octet>)
    requires BlockToBlock(c) && |iv| == c.size && |pre| == lo && Whole(|p|, c.size) && buf[..] == pre + p
    modifies buf
    ensures buf[..] == pre + Encrypted(c, iv, p)
  {
    SealingStart(c, iv, pre, p);
    var prev := iv;
    var k := 0;
    while lo + k < buf.Length
      invariant k <= |p| && lo + |p| == buf.Length
      invariant Sealing(c, iv, buf[..], pre, p, k, prev)
    {
      prev := EncryptTurn(c, iv, buf, pre, p, lo + k, k, prev);
      k := k + c.size;
    }
    SealingEnd(c, iv, buf[..], pre, p, prev);
  }

  /** `EncryptCBC` on the part of `buf` from `lo` on.  The running block is the ciphertext just
      written. */
  method EncryptCBC(c: BlockCipher, iv: seq<octet>, buf: array<octet>, lo: nat) returns (ok: bool)
    requires BlockToBlock(c) && lo <= buf.Length
    modifies buf
    ensures ok <==> |iv| == c.size && (buf.Length - lo) % c.size == 0
    ensures ok ==> Whole(buf.Length - lo, c.size) && buf[..] == old(buf[..lo]) + Encrypted(c, iv, old(buf[lo..]))
    ensures !ok ==> buf[..] == old(buf[..])
  {
    if |iv| != c.size || (buf.Length - lo) % c.size != 0 {
      return false;
    }
    WholeIff(buf.Length - lo, c.size);
    assert buf[..] == buf[..lo] + buf[lo..];
    EncryptBlocks(c, iv, buf, lo, buf[..lo], buf[lo..]);
    ok := true;
  }

  const MAX_BLOCK := 32

  method DecryptBlock(c: BlockCipher, dst: array<octet>, i: nat, ciph: seq<octet>, prev: seq<octet>)
    requires BlockToBlock(c) && i + c.size <= dst.Length && |ciph| == |prev| == c.size
    modifies dst
    ensures dst[..] == Overwrite(old(dst[..]), i, XorBytes(c.decrypt(ciph), prev))
  {
    ghost var s := dst[..];
    var plain := c.decrypt(ciph);
    WriteBlock(dst, i, plain);
    OverwriteTwice(s, i, plain, XorBytes(plain, prev));
    assert dst[i..i + c.size] == dst[..][i..i + c.size];
    WriteBlock(dst, i, XorBytes(dst[i..i + c.size], prev));
  }

  lemma PreviousOfPrefix(iv: seq<octet>, x: seq<octet>, k: nat, size: nat)
    requires |iv| == size && k <= |x| && (k > 0 ==> k >= size)
    ensures Previous(iv, x[..k], k, size) == Previous(iv, x, k, size)
  {
  }

  lemma {:induction false} DecryptStep(c: BlockCipher, iv: seq<octet>, x: seq<octet>, k: nat)
    requires BlockToBlock(c) && |iv| == c.size && Whole(k, c.size) && k + c.size <= |x|
    ensures Whole(k + c.size, c.size)
    ensures Decrypted(c, iv, x[..k + c.size])
            == Decrypted(c, iv, x[..k]) + XorBytes(c.decrypt(x[k..k + c.size]), Previous(iv, x, k, c.size))
  {
    TwoParts(x, k, k + c.size);
    DecryptedSnoc(c, iv, x[..k], x[k..k + c.size]);
    PreviousOfPrefix(iv, x, k, c.size);
  }

  /** Where the decryption loop stands: `i` bytes of `x` are decrypted in `d`, the rest of it is still in `s`. */
  ghost predicate Opening(c: BlockCipher, iv: seq<octet>, s: seq<octet>, d: seq<octet>, x: seq<octet>, i: nat,
                          prev: seq<octet>)
    requires BlockToBlock(c) && |iv| == c.size
  {
    && i <= |x| == |s| == |d| && Whole(i, c.size) && Whole(|x| - i, c.size)
    && s[i..] == x[i..] && d[..i] == Decrypted(c, iv, x[..i]) && prev == Previous(iv, x, i, c.size)
  }

  lemma SameTail(s: seq<octet>, x: seq<octet>, i: nat, j: nat)
    requires i <= j <= |s| == |x| && s[i..] == x[i..]
    ensures s[i..j] == x[i..j] && s[j..] == x[j..]
  {
    assert s[i..j] == s[i..][..j - i] && x[i..j] == x[i..][..j - i];
    assert s[j..] == s[i..][j - i..] && x[j..] == x[i..][j - i..];
  }

  /** One block further, in arrays that hold the rest of the ciphertext and the longer plaintext. */
  lemma {:induction false} OpeningNext(c: BlockCipher, iv: seq<octet>, s: seq<octet>, d: seq<octet>, x: seq<octet>,
                                       i: nat)
    requires BlockToBlock(c) && |iv| == c.size && i + c.size <= |x| == |s| == |d|
    requires Whole(i, c.size) && Whole(|x| - i - c.size, c.size) && s[i + c.size..] == x[i + c.size..]
    requires d[..i + c.size] ==
             Decrypted(c, iv, x[..i]) + XorBytes(c.decrypt(x[i..i + c.size]), Previous(iv, x, i, c.size))
    ensures Opening(c, iv, s, d, x, i + c.size, x[i..i + c.size])
  {
    DecryptStep(c, iv, x, i);
  }

  /** A decrypted block goes into `d`; if `s` is the same array its tail is untouched. */
  lemma {:induction false} OpeningStep(c: BlockCipher, iv: seq<octet>, s: seq<octet>, d: seq<octet>, x: seq<octet>,
                                       i: nat, prev: seq<octet>, s': seq<octet>, d': seq<octet>)
    requires BlockToBlock(c) && |iv| == c.size && Opening(c, iv, s, d, x, i, prev) && i + c.size <= |x|
    requires d' == Overwrite(d, i, XorBytes(c.decrypt(x[i..i + c.size]), prev))
    requires s' == s || (s == d && s' == d')
    ensures Opening(c, iv, s', d', x, i + c.size, x[i..i + c.size])
  {
    AnotherBlock(|x| - i, c.size);
    SameTail(s, x, i, i + c.size);
    OverwriteSplit(d, i, XorBytes(c.decrypt(x[i..i + c.size]), prev));
    OpeningNext(c, iv, s', d', x, i);
  }

  /** One turn of the decryption loop: the plaintext grows by a block, the rest of the ciphertext
      is still there even when it shares the array. */
  method DecryptTurn(c: BlockCipher, ghost iv: seq<octet>, src: array<octet>, dst: array<octet>, i: nat,
                     prev: seq<octet>, ghost x: seq<octet>) returns (ciph: seq<octet>)
    requires BlockToBlock(c) && |iv| == c.size && Opening(c, iv, src[..], dst[..], x, i, prev) && i < |x|
    modifies dst
    ensures i + c.size <= |x| && Opening(c, iv, src[..], dst[..], x, i + c.size, ciph)
  {
    ghost var s, d := src[..], dst[..];
    AnotherBlock(|x| - i, c.size);
    SameTail(s, x, i, i + c.size);
    ciph := src[i..i + c.size];
    assert ciph == s[i..i + c.size];
    DecryptBlock(c, dst, i, ciph, prev);
    OpeningStep(c, iv, s, d, x, i, prev, src[..], dst[..]);
  }

  lemma OpeningStart(c: BlockCipher, iv: seq<octet>, d: seq<octet>, x: seq<octet>)
    requires BlockToBlock(c) && |iv| == c.size && Whole(|x|, c.size) && |d| == |x|
    ensures Opening(c, iv, x, d, x, 0, iv)
  {
    assert x[..0] == [] && d[..0] == [];
  }

  lemma OpeningEnd(c: BlockCipher, iv: seq<octet>, s: seq<octet>, d: seq<octet>, x: seq<octet>, prev: seq<octet>)
    requires BlockToBlock(c) && |iv| == c.size && Opening(c, iv, s, d, x, |x|, prev)
    ensures Whole(|x|, c.size) && d == Decrypted(c, iv, x)
  {
    assert x[..|x|] == x && d[..|x|] == d;
  }

  method DecryptBlocks(c: BlockCipher, iv: seq<octet>, src: array<octet>, dst: array<octet>, ghost x: seq<octet>)
    requires BlockToBlock(c) && |iv| == c.size && |x| == src.Length == dst.Length && Whole(|x|, c.size)
    requires src[..] == x
    modifies dst
    ensures dst[..] == Decrypted(c, iv, x)
  {
    OpeningStart(c, iv, dst[..], x);
    var prev := iv;
    var i := 0;
    while i < src.Length
      invariant i <= |x|
      invariant Opening(c, iv, src[..], dst[..], x, i, prev)
    {
      prev := DecryptTurn(c, iv, src, dst, i, prev, x);
      i := i + c.size;
    }
    OpeningEnd(c, iv, src[..], dst[..], x, prev);
  }

  /** `DecryptCBC`; `src` and `dst` may be the same array. */
  method DecryptCBC(c: BlockCipher, iv: seq<octet>, src: array<octet>, dst: array<octet>) returns (ok: bool)
    requires BlockToBlock(c)
    modifies dst
    ensures ok <==> |iv| == c.size && src.Length == dst.Length && src.Length % c.size == 0 && c.size <= MAX_BLOCK
    ensures ok ==> Whole(src.Length, c.size) && dst[..] == Decrypted(c, iv, old(src[..]))
    ensures !ok ==> dst[..] == old(dst[..])
  {
    if |iv| != c.size || src.Length != dst.Length || src.Length % c.size != 0 {
      return false;
    }
    if c.size > MAX_BLOCK {
      return false;
    }
    WholeIff(src.Length, c.size);
    DecryptBlocks(c, iv, src, dst, src[..]);
    ok := true;
  }

  /** Encrypting a buffer in place and decrypting it, in place or into another buffer, gives the
      plaintext back, for every cipher whose decryption undoes its encryption. */
  method RoundTrip(c: BlockCipher, iv: seq<octet>, buf: array<octet>, dst: array<octet>) returns (ok: bool)
    requires DecryptUndoes(c) && |iv| == c.size <= MAX_BLOCK
    requires buf.Length == dst.Length && buf.Length % c.size == 0
    modifies buf, dst
    ensures ok && dst[..] == old(buf[..])
  {
    ghost var p := buf[..];
    assert buf[..0] == [] && buf[0..] == p;
    ok := EncryptCBC(c, iv, buf, 0);
    assert buf[..] == Encrypted(c, iv, p);
    ok := DecryptCBC(c, iv, buf, dst);
    DecryptedEncrypted(c, iv, p);
  }
}
