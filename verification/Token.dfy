/** PKCS#7 padding (`pkg/cryptography/pkcs7.go`, section 6.3 of RFC 5652) and the Token format IV ||
    AES-CBC ciphertext || HMAC (`pkg/cryptography/token.go`, `pkg/cryptography/aes.go`). */
module Token {
  import opened Bytes
  import opened Cbc

  const BLOCK_SIZE := 16
  const SHA256_SIZE := 32
  const AES256_KEY_SIZE := 32
  const TOKEN_KEY_SIZE := 64
  const TOKEN_KEY_SIZE_128 := 32

  // ---------------------------------------------------------------- padding

  function PadLength(n: nat): (k: int)
    ensures 1 <= k <= BLOCK_SIZE && (n + k) % BLOCK_SIZE == 0
  {
    BLOCK_SIZE - n % BLOCK_SIZE
  }

  function Fill(k: nat, b: octet): (r: seq<octet>)
    ensures |r| == k && forall i :: 0 <= i < k ==> r[i] == b
  {
    seq(k, i => b)
  }

  function Pad(p: seq<octet>): (r: seq<octet>)
    ensures |r| == |p| + PadLength(|p|)
  {
    p + Fill(PadLength(|p|), PadLength(|p|))
  }

  datatype Unpadded = PaddingEmpty | PaddingSize | PaddingTooLarge | PaddingBytes | Plain(data: seq<octet>)

  ghost predicate AllAre(x: seq<octet>, lo: nat, b: octet) {
    forall i :: lo <= i < |x| ==> x[i] == b
  }

  /** Removes exactly what `Pad` adds: it succeeds on padded data only and returns the one
      plaintext that pads to it. */
  method RemovePKCS7Padding(x: seq<octet>) returns (r: Unpadded)
    ensures r.Plain? <==> exists p :: Pad(p) == x
    ensures r.Plain? ==> Pad(r.data) == x
    ensures r.PaddingEmpty? <==> x == []
    ensures r != PaddingTooLarge
  {
    if |x| == 0 {
      NotPadded(x);
      return PaddingEmpty;
    }
    if |x| % BLOCK_SIZE != 0 {
      NotPadded(x);
      return PaddingSize;
    }
    var padding := x[|x| - 1];
    if padding > BLOCK_SIZE || padding == 0 {
      NotPadded(x);
      return PaddingSize;
    }
    assert |x| >= BLOCK_SIZE;
    if |x| < padding {
      return PaddingTooLarge;
    }
    var bad: octet := 0;
    for i := |x| - padding to |x|
      invariant bad == 0 <==> forall k :: |x| - padding <= k < i ==> x[k] == padding
    {
      OrZero(bad, Xor(x[i], padding));
      XorZero(x[i], padding);
      bad := Or(bad, Xor(x[i], padding));
    }
    if bad != 0 {
      NotPadded(x);
      return PaddingBytes;
    }
    PaddedWith(x, padding);
    r := Plain(x[..|x| - padding]);
  }

  /** The last byte of padded data says how much was added. */
  lemma PadShape(p: seq<octet>)
    ensures var x, k := Pad(p), PadLength(|p|);
            && |x| >= k && |x| % BLOCK_SIZE == 0 && x[|x| - 1] == k
            && x[..|x| - k] == p && AllAre(x, |x| - k, k)
  {
  }

  lemma NotPadded(x: seq<octet>)
    requires || x == [] || |x| % BLOCK_SIZE != 0
             || x[|x| - 1] > BLOCK_SIZE || x[|x| - 1] == 0
             || (x[|x| - 1] <= |x| && !AllAre(x, |x| - x[|x| - 1], x[|x| - 1]))
    ensures forall p :: Pad(p) != x
  {
    forall p
      ensures Pad(p) != x
    {
      PadShape(p);
    }
  }

  lemma PadLengthOf(n: nat, k: nat)
    requires 1 <= k <= BLOCK_SIZE <= n && n % BLOCK_SIZE == 0
    ensures PadLength(n - k) == k
  {
    var q := n / BLOCK_SIZE - 1;
    assert n - k == q * BLOCK_SIZE + (BLOCK_SIZE - k);
  }

  lemma FillIs(y: seq<octet>, b: octet)
    requires AllAre(y, 0, b)
    ensures Fill(|y|, b) == y
  {
  }

  lemma PaddedWith(x: seq<octet>, k: int)
    requires 1 <= k <= BLOCK_SIZE <= |x| && |x| % BLOCK_SIZE == 0 && AllAre(x, |x| - k, k)
    ensures Pad(x[..|x| - k]) == x
  {
    PadLengthOf(|x|, k);
    FillIs(x[|x| - k..], k);
    assert x == x[..|x| - k] + x[|x| - k..];
  }

  /** Padding is injective, so the plaintext of padded data is unique. */
  lemma PadInjective(p: seq<octet>, q: seq<octet>)
    requires Pad(p) == Pad(q)
    ensures p == q
  {
    PadShape(p);
    PadShape(q);
  }

  // ---------------------------------------------------------------- AES-CBC with a prepended IV

  /** The primitives, abstractly: a block cipher per key and a keyed hash. */
  datatype Suite = Suite(cipher: seq<octet> -> BlockCipher, hmac: (seq<octet>, seq<octet>) -> seq<octet>)

  ghost predicate KeyOk(s: Suite, k: seq<octet>) {
    s.cipher(k).size == BLOCK_SIZE && DecryptUndoes(s.cipher(k)) && EncryptUndoes(s.cipher(k))
  }

  ghost predicate SuiteOk(s: Suite) {
    && (forall k :: |k| == 16 || |k| == AES256_KEY_SIZE ==> KeyOk(s, k))
    && (forall k, m :: |s.hmac(k, m)| == SHA256_SIZE)
  }

  lemma PadWhole(p: seq<octet>)
    ensures Whole(|Pad(p)|, BLOCK_SIZE)
  {
    WholeIff(|Pad(p)|, BLOCK_SIZE);
  }

  /** IV followed by the encrypted padded plaintext. */
  ghost function Sealed(c: BlockCipher, iv: seq<octet>, p: seq<octet>): (r: seq<octet>)
    requires BlockToBlock(c) && c.size == BLOCK_SIZE && |iv| == BLOCK_SIZE
    ensures |r| == BLOCK_SIZE + |Pad(p)|
  {
    PadWhole(p);
    iv + Encrypted(c, iv, Pad(p))
  }

  ghost predicate IsSealed(c: BlockCipher, x: seq<octet>, iv: seq<octet>, p: seq<octet>)
    requires BlockToBlock(c) && c.size == BLOCK_SIZE
  {
    |iv| == BLOCK_SIZE && x == Sealed(c, iv, p)
  }

  ghost predicate Sealable(c: BlockCipher, x: seq<octet>)
    requires BlockToBlock(c) && c.size == BLOCK_SIZE
  {
    exists iv, p :: IsSealed(c, x, iv, p)
  }

  /** One array holding IV, plaintext and padding. */
  method LayOut(iv: seq<octet>, p: seq<octet>) returns (out: array<octet>)
    requires |iv| == BLOCK_SIZE
    ensures fresh(out) && out[..] == iv + Pad(p)
  {
    var padding := BLOCK_SIZE - |p| % BLOCK_SIZE;
    var ctLen := |p| + padding;
    out := new octet[BLOCK_SIZE + ctLen](i => 0);
    WriteBlock(out, 0, iv);
    WriteBlock(out, BLOCK_SIZE, p);
    ghost var head := iv + p;
    assert out[..][..BLOCK_SIZE + |p|] == head;
    var i := BLOCK_SIZE + |p|;
    while i < BLOCK_SIZE + ctLen
      invariant |head| <= i <= BLOCK_SIZE + ctLen
      invariant forall k :: 0 <= k < |head| ==> out[k] == head[k]
      invariant forall k :: |head| <= k < i ==> out[k] == padding
    {
      out[i] := padding;
      i := i + 1;
    }
    assert out[..] == head + Fill(padding, padding);
    assert head + Fill(padding, padding) == iv + Pad(p);
  }

  lemma SplitAt(a: seq<octet>, b: seq<octet>)
    ensures (a + b)[..|a|] == a && (a + b)[|a|..] == b
  {
  }

  /** `implEncryptAES256CBC` and the 128-bit twin: lay out the message and encrypt its tail in
      place. */
  method EncryptAESCBC(c: BlockCipher, iv: seq<octet>, p: seq<octet>) returns (out: array<octet>)
    requires BlockToBlock(c) && c.size == BLOCK_SIZE && |iv| == BLOCK_SIZE
    ensures fresh(out) && out[..] == Sealed(c, iv, p)
  {
    out := LayOut(iv, p);
    PadWhole(p);
    ghost var padded := Pad(p);
    SplitAt(iv, padded);
    assert out[..BLOCK_SIZE] == out[..][..BLOCK_SIZE] && out[BLOCK_SIZE..] == out[..][BLOCK_SIZE..];
    WholeIff(|padded|, BLOCK_SIZE);
    var ok := EncryptCBC(c, out[..BLOCK_SIZE], out, BLOCK_SIZE);
  }

  datatype Opened = BadKey | TooShort | BadMac | NotBlocks | BadPadding | Ok(data: seq<octet>)

  /** Opens exactly the sealed messages and says why it refuses the rest. */
  method DecryptAESCBC(c: BlockCipher, x: seq<octet>) returns (r: Opened)
    requires DecryptUndoes(c) && EncryptUndoes(c) && c.size == BLOCK_SIZE
    ensures r.Ok? ==> |x| >= BLOCK_SIZE && IsSealed(c, x, x[..BLOCK_SIZE], r.data)
    ensures r.Ok? <==> Sealable(c, x)
    ensures r.TooShort? <==> |x| < BLOCK_SIZE
    ensures r.NotBlocks? <==> |x| >= BLOCK_SIZE && (|x| - BLOCK_SIZE) % BLOCK_SIZE != 0
    ensures r.Ok? || r.TooShort? || r.NotBlocks? || r.BadPadding?
  {
    SealableSize(c, x);
    if |x| < BLOCK_SIZE {
      return TooShort;
    }
    var iv, ct := x[..BLOCK_SIZE], x[BLOCK_SIZE..];
    if |ct| % BLOCK_SIZE != 0 {
      return NotBlocks;
    }
    var plaintext := DecryptedBlocks(c, iv, ct);
    var u := RemovePKCS7Padding(plaintext);
    assert x == iv + ct;
    if u.Plain? {
      SealedParts(c, iv, ct, u.data);
      assert IsSealed(c, x, iv, u.data);
      return Ok(u.data);
    }
    SealablePadded(c, iv, ct);
    r := BadPadding;
  }

  method DecryptedBlocks(c: BlockCipher, iv: seq<octet>, ct: seq<octet>) returns (plaintext: seq<octet>)
    requires BlockToBlock(c) && c.size == |iv| == BLOCK_SIZE && |ct| % BLOCK_SIZE == 0
    ensures Whole(|ct|, BLOCK_SIZE) && plaintext == Decrypted(c, iv, ct)
  {
    var src := new octet[|ct|](i requires 0 <= i < |ct| => ct[i]);
    var dst := new octet[|ct|](i => 0);
    assert src[..] == ct;
    var ok := DecryptCBC(c, iv, src, dst);
    plaintext := dst[..];
  }

  lemma SealedParts(c: BlockCipher, iv: seq<octet>, ct: seq<octet>, p: seq<octet>)
    requires EncryptUndoes(c) && c.size == BLOCK_SIZE == |iv| && Whole(|ct|, BLOCK_SIZE)
    requires Pad(p) == Decrypted(c, iv, ct)
    ensures Sealed(c, iv, p) == iv + ct
  {
    EncryptedDecrypted(c, iv, ct);
  }

  lemma SealedSize(c: BlockCipher, iv: seq<octet>, p: seq<octet>)
    requires BlockToBlock(c) && c.size == BLOCK_SIZE == |iv|
    ensures |Sealed(c, iv, p)| >= BLOCK_SIZE && (|Sealed(c, iv, p)| - BLOCK_SIZE) % BLOCK_SIZE == 0
  {
  }

  lemma SealableSize(c: BlockCipher, x: seq<octet>)
    requires BlockToBlock(c) && c.size == BLOCK_SIZE
    ensures Sealable(c, x) ==> |x| >= BLOCK_SIZE && (|x| - BLOCK_SIZE) % BLOCK_SIZE == 0
  {
    if Sealable(c, x) {
      var iv, p :| IsSealed(c, x, iv, p);
      SealedSize(c, iv, p);
    }
  }

  lemma SealablePadded(c: BlockCipher, iv: seq<octet>, ct: seq<octet>)
    requires DecryptUndoes(c) && c.size == BLOCK_SIZE == |iv| && Whole(|ct|, BLOCK_SIZE)
    ensures Sealable(c, iv + ct) ==> exists p :: Pad(p) == Decrypted(c, iv, ct)
  {
    if Sealable(c, iv + ct) {
      var iv', p :| IsSealed(c, iv + ct, iv', p);
      UnsealParts(c, iv, ct, iv', p);
    }
  }

  lemma UnsealParts(c: BlockCipher, iv: seq<octet>, ct: seq<octet>, iv': seq<octet>, p: seq<octet>)
    requires DecryptUndoes(c) && c.size == BLOCK_SIZE == |iv| && Whole(|ct|, BLOCK_SIZE)
    requires IsSealed(c, iv + ct, iv', p)
    ensures iv' == iv && Pad(p) == Decrypted(c, iv, ct)
  {
    PadWhole(p);
    SplitAt(iv, ct);
    SplitAt(iv', Encrypted(c, iv', Pad(p)));
    DecryptedEncrypted(c, iv', Pad(p));
  }

  // ---------------------------------------------------------------- tokens

  predicate TokenKey(key: seq<octet>) { |key| == TOKEN_KEY_SIZE || |key| == TOKEN_KEY_SIZE_128 }

  function MacKey(key: seq<octet>): seq<octet>
    requires TokenKey(key)
  {
    key[..|key| / 2]
  }

  function EncKey(key: seq<octet>): seq<octet>
    requires TokenKey(key)
  {
    key[|key| / 2..]
  }

  lemma CipherOk(s: Suite, key: seq<octet>)
    requires SuiteOk(s) && TokenKey(key)
    ensures KeyOk(s, EncKey(key))
  {
  }

  /** IV || ciphertext || MAC of both. */
  ghost function TokenOf(s: Suite, key: seq<octet>, iv: seq<octet>, p: seq<octet>): seq<octet>
    requires SuiteOk(s) && TokenKey(key) && |iv| == BLOCK_SIZE
  {
    CipherOk(s, key);
    var body := Sealed(s.cipher(EncKey(key)), iv, p);
    body + s.hmac(MacKey(key), body)
  }

  method SplitTokenKey(key: seq<octet>) returns (ok: bool, hmacKey: seq<octet>, encKey: seq<octet>)
    ensures ok <==> TokenKey(key)
    ensures ok ==> hmacKey == MacKey(key) && encKey == EncKey(key) && hmacKey + encKey == key
  {
    if |key| == TOKEN_KEY_SIZE_128 {
      return true, key[..16], key[16..];
    }
    if |key| == TOKEN_KEY_SIZE {
      return true, key[..32], key[32..];
    }
    return false, [], [];
  }

  method EncryptToken(s: Suite, key: seq<octet>, iv: seq<octet>, p: seq<octet>) returns (r: Opened)
    requires SuiteOk(s) && |iv| == BLOCK_SIZE
    ensures r == if TokenKey(key) then Ok(TokenOf(s, key, iv, p)) else BadKey
  {
    var ok, hmacKey, encKey := SplitTokenKey(key);
    if !ok {
      return BadKey;
    }
    CipherOk(s, key);
    var ct := EncryptAESCBC(s.cipher(encKey), iv, p);
    var mac := s.hmac(hmacKey, ct[..]);
    r := Ok(ct[..] + mac);
  }

  /** `t` carries `p` under `iv` and a matching MAC. */
  ghost predicate IsToken(s: Suite, key: seq<octet>, t: seq<octet>, iv: seq<octet>, p: seq<octet>)
    requires SuiteOk(s) && TokenKey(key)
  {
    CipherOk(s, key);
    && |t| >= BLOCK_SIZE + SHA256_SIZE
    && IsSealed(s.cipher(EncKey(key)), t[..|t| - SHA256_SIZE], iv, p)
    && s.hmac(MacKey(key), t[..|t| - SHA256_SIZE]) == t[|t| - SHA256_SIZE..]
  }

  ghost predicate Opens(s: Suite, key: seq<octet>, t: seq<octet>)
    requires SuiteOk(s) && TokenKey(key)
  {
    exists iv, p :: IsToken(s, key, t, iv, p)
  }

  lemma SplitEnd(t: seq<octet>, n: nat)
    requires n <= |t|
    ensures t == t[..|t| - n] + t[|t| - n..]
  {
  }

  lemma JoinEnd(a: seq<octet>, b: seq<octet>)
    ensures (a + b)[..|a + b| - |b|] == a && (a + b)[|a + b| - |b|..] == b
  {
  }

  lemma TokenOfIsToken(s: Suite, key: seq<octet>, iv: seq<octet>, p: seq<octet>)
    requires SuiteOk(s) && TokenKey(key) && |iv| == BLOCK_SIZE
    ensures IsToken(s, key, TokenOf(s, key, iv, p), iv, p)
  {
    CipherOk(s, key);
    var body := Sealed(s.cipher(EncKey(key)), iv, p);
    JoinEnd(body, s.hmac(MacKey(key), body));
  }

  /** The bytes of a token: the IV, the chained encryption of the padded plaintext, and the keyed hash
      of both; the first half of the key authenticates, the second encrypts. */
  lemma TokenLayout(s: Suite, key: seq<octet>, iv: seq<octet>, p: seq<octet>)
    requires SuiteOk(s) && TokenKey(key) && |iv| == BLOCK_SIZE
    ensures |key| == 32 || |key| == 64
    ensures var t, half := TokenOf(s, key, iv, p), |key| / 2;
            var body := t[..|t| - 32];
            && KeyOk(s, key[half..]) && Whole(|Pad(p)|, BLOCK_SIZE)
            && |t| == 16 + |Pad(p)| + 32 && t[|t| - 32..] == s.hmac(key[..half], body)
            && body == iv + Encrypted(s.cipher(key[half..]), iv, Pad(p))
  {
    CipherOk(s, key);
    PadWhole(p);
    var body := Sealed(s.cipher(EncKey(key)), iv, p);
    JoinEnd(body, s.hmac(MacKey(key), body));
  }

  /** Being a token is being the output of `EncryptToken`. */
  lemma IsTokenIff(s: Suite, key: seq<octet>, t: seq<octet>, iv: seq<octet>, p: seq<octet>)
    requires SuiteOk(s) && TokenKey(key)
    ensures IsToken(s, key, t, iv, p) <==> |iv| == BLOCK_SIZE && t == TokenOf(s, key, iv, p)
  {
    if |iv| == BLOCK_SIZE { TokenOfIsToken(s, key, iv, p); }
    if IsToken(s, key, t, iv, p) { SplitEnd(t, SHA256_SIZE); }
  }

  /** Opens exactly the tokens that `EncryptToken` can produce under the key. */
  method DecryptToken(s: Suite, key: seq<octet>, token: seq<octet>) returns (r: Opened)
    requires SuiteOk(s)
    ensures r == BadKey <==> !TokenKey(key)
    ensures r.Ok? ==> |token| >= BLOCK_SIZE && IsToken(s, key, token, token[..BLOCK_SIZE], r.data)
    ensures TokenKey(key) ==> (r.Ok? <==> Opens(s, key, token))
    ensures r.TooShort? <==> TokenKey(key) && |token| < 48
    ensures r.BadMac? <==>
              TokenKey(key) && |token| >= 48
              && s.hmac(key[..|key| / 2], token[..|token| - 32]) != token[|token| - 32..]
  {
    var ok, hmacKey, encKey := SplitTokenKey(key);
    if !ok {
      return BadKey;
    }
    CipherOk(s, key);
    OpensOnlyIf(s, key, token);
    if |token| < BLOCK_SIZE + SHA256_SIZE {
      return TooShort;
    }
    var mac := token[|token| - SHA256_SIZE..];
    var body := token[..|token| - SHA256_SIZE];
    assert body[..BLOCK_SIZE] == token[..BLOCK_SIZE];
    if s.hmac(hmacKey, body) != mac {
      return BadMac;
    }
    r := DecryptAESCBC(s.cipher(encKey), body);
    if r.Ok? {
      assert IsToken(s, key, token, body[..BLOCK_SIZE], r.data);
    }
  }

  lemma OpensOnlyIf(s: Suite, key: seq<octet>, t: seq<octet>)
    requires SuiteOk(s) && TokenKey(key) && KeyOk(s, EncKey(key))
    ensures Opens(s, key, t) ==>
              && |t| >= BLOCK_SIZE + SHA256_SIZE
              && Sealable(s.cipher(EncKey(key)), t[..|t| - SHA256_SIZE])
              && s.hmac(MacKey(key), t[..|t| - SHA256_SIZE]) == t[|t| - SHA256_SIZE..]
  {
    if Opens(s, key, t) {
      var iv, p :| IsToken(s, key, t, iv, p);
      assert IsSealed(s.cipher(EncKey(key)), t[..|t| - SHA256_SIZE], iv, p);
    }
  }

  /** The plaintext (and the IV) of a token is determined by the token. */
  lemma TokenInjective(s: Suite, key: seq<octet>, t: seq<octet>, iv: seq<octet>, p: seq<octet>,
                       iv': seq<octet>, p': seq<octet>)
    requires SuiteOk(s) && TokenKey(key)
    requires IsToken(s, key, t, iv, p) && IsToken(s, key, t, iv', p')
    ensures iv == iv' && p == p'
  {
    CipherOk(s, key);
    SealedInjective(s.cipher(EncKey(key)), t[..|t| - SHA256_SIZE], iv, p, iv', p');
  }

  lemma SealedInjective(c: BlockCipher, x: seq<octet>, iv: seq<octet>, p: seq<octet>, iv': seq<octet>, p': seq<octet>)
    requires DecryptUndoes(c) && c.size == BLOCK_SIZE && IsSealed(c, x, iv, p) && IsSealed(c, x, iv', p')
    ensures iv == iv' && p == p'
  {
    PadWhole(p);
    PadWhole(p');
    assert x[..BLOCK_SIZE] == iv == iv';
    assert x[BLOCK_SIZE..] == Encrypted(c, iv, Pad(p)) == Encrypted(c, iv, Pad(p'));
    DecryptedEncrypted(c, iv, Pad(p));
    DecryptedEncrypted(c, iv, Pad(p'));
    PadInjective(p, p');
  }

  /** Decrypting an encrypted token returns the plaintext, for both key sizes and every IV. */
  method TokenRoundTrip(s: Suite, key: seq<octet>, iv: seq<octet>, p: seq<octet>) returns (r: Opened)
    requires SuiteOk(s) && TokenKey(key) && |iv| == BLOCK_SIZE
    ensures r == Ok(p)
  {
    var t := EncryptToken(s, key, iv, p);
    r := DecryptToken(s, key, t.data);
    IsTokenIff(s, key, t.data, iv, p);
    TokenInjective(s, key, t.data, iv, p, t.data[..BLOCK_SIZE], r.data);
  }
}
