/**
 How passwords are encrypted (common/security/security.go): padding, cipher block
 chaining, and the framing that tells the present format from the legacy one.

 The block cipher is an arbitrary keyed permutation of 16-byte blocks, base64 an
 arbitrary encoding that can be decoded, the initialisation vector an arbitrary block.
 */
module AesFraming {
  import opened Wrappers

  type byte = bv8
  type bytes = seq<byte>

  const BLOCK: nat := 16
  const MAGIC: bytes := [0x4F, 0x46, 0x4D, 0x4B]  // "OFMK"
  const LEGACY_KEY: bytes := [0x63, 0x30, 0x32, 0x62, 0x61, 0x30, 0x62, 0x35,
                              0x38, 0x32, 0x35, 0x30, 0x31, 0x36, 0x30, 0x38]  // "c02ba0b582501608"

  type Block = b: bytes | |b| == 16 witness seq(16, _ => 0)

  /** A block cipher under one key. */
  datatype Cipher = Cipher(enc: Block -> Block, dec: Block -> Block)

  /** The cipher of each key, and base64. */
  datatype Library = Library(cipher: bytes -> Cipher, encode: bytes -> string, decode: string -> Option<bytes>)

  ghost predicate IsPermutation(c: Cipher) {
    forall b: Block :: c.dec(c.enc(b)) == b && c.enc(c.dec(b)) == b
  }

  ghost predicate ValidLibrary(lib: Library) {
    && (forall k: bytes :: IsPermutation(lib.cipher(k)))
    && (forall d: bytes :: lib.decode(lib.encode(d)) == Some(d))
  }

  datatype Error = BadEncoding | KeyNotLoaded | KeyNotSet | BadLength | BadPadding

  // Padding, section 6.3 of RFC 5652 ----------------------------------------------------

  function PadLength(n: nat): (p: nat)
    ensures 1 <= p <= BLOCK && (n + p) % BLOCK == 0
  {
    BLOCK - n % BLOCK
  }

  function Fill(n: nat): bytes
    requires n <= BLOCK
  {
    seq(n, _ => n as byte)
  }

  function Pad(d: bytes): (r: bytes)
    ensures |r| % BLOCK == 0 && |r| >= BLOCK && d <= r
  {
    d + Fill(PadLength(|d|))
  }

  /** Only the last byte is looked at. */
  function Unpad(d: bytes): Result<bytes, Error> {
    if |d| == 0 then Err(BadPadding)
    else
      var n := d[|d| - 1] as int;
      if n > |d| || n == 0 || n > BLOCK then Err(BadPadding) else Ok(d[..|d| - n])
  }

  lemma UnpadPad(d: bytes)
    ensures Unpad(Pad(d)) == Ok(d)
  {
    var n := PadLength(|d|);
    ByteRoundTrip(n);
    assert Pad(d)[|Pad(d)| - 1] == n as byte;
    assert Pad(d)[..|d|] == d;
  }

  lemma ByteRoundTrip(n: nat)
    requires n <= BLOCK
    ensures (n as byte) as int == n
  {
  }

  /** All bytes of the padding are its length. */
  predicate Uniform(d: bytes) {
    |d| > 0 && var n := d[|d| - 1] as int; n <= |d| && forall i :: |d| - n <= i < |d| ==> d[i] == d[|d| - 1]
  }

  /** Unpadding is undone by padding exactly when the whole padding is uniform. */
  lemma PadUnpad(d: bytes)
    requires |d| % BLOCK == 0 && Unpad(d).Ok?
    ensures Pad(Unpad(d).value) == d <==> Uniform(d)
  {
    var n := d[|d| - 1] as int;
    var p := d[..|d| - n];
    PadLengthOf(|d|, n);
    ByteRoundTrip(n);
    assert d == p + d[|p|..];
    assert Pad(p)[|p|..] == Fill(n);
    if Uniform(d) {
      assert d[|p|..] == Fill(n);
    } else {
      var i :| |d| - n <= i < |d| && d[i] != d[|d| - 1];
      assert Pad(p)[i] == d[|d| - 1];
    }
  }

  /** A block that ends in 7, 2 is unpadded by two bytes, and padding gives another block. */
  lemma UnevenPadding() returns (d: bytes)
    ensures |d| == BLOCK && Unpad(d).Ok? && Pad(Unpad(d).value) != d
  {
    d := seq(14, _ => 0) + [7, 2];
    assert d[15] == 2 && d[14] == 7;
    assert (2 as byte) as int == 2;
    PadUnpad(d);
  }

  lemma PadLengthOf(len: nat, n: nat)
    requires len % BLOCK == 0 && 1 <= n <= BLOCK && n <= len
    ensures PadLength(len - n) == n
  {
  }

  // Cipher block chaining, section 6.2 of NIST SP 800-38A ---------------------------------

  function Xor(a: Block, b: Block): Block {
    seq(16, i requires 0 <= i < 16 => a[i] ^ b[i])
  }

  lemma XorTwice(a: Block, b: Block)
    ensures Xor(Xor(a, b), b) == a
  {
    forall i | 0 <= i < 16 ensures Xor(Xor(a, b), b)[i] == a[i] {
      XorByteTwice(a[i], b[i]);
    }
  }

  lemma XorByteTwice(x: byte, y: byte)
    ensures (x ^ y) ^ y == x
  {
  }

  function Encrypt(c: Cipher, iv: Block, d: bytes): (r: bytes)
    requires |d| % BLOCK == 0
    ensures |r| == |d|
    decreases |d|
  {
    if |d| < BLOCK then []
    else
      var x := c.enc(Xor(d[..BLOCK], iv));
      x + Encrypt(c, x, d[BLOCK..])
  }

  function Decrypt(c: Cipher, iv: Block, d: bytes): (r: bytes)
    requires |d| % BLOCK == 0
    ensures |r| == |d|
    decreases |d|
  {
    if |d| < BLOCK then []
    else Xor(c.dec(d[..BLOCK]), iv) + Decrypt(c, d[..BLOCK], d[BLOCK..])
  }

  function BlockAt(d: bytes, i: nat): Block
    requires BLOCK * (i + 1) <= |d|
  {
    d[BLOCK * i..BLOCK * (i + 1)]
  }

  /** Each block is enciphered after it is combined with the cipher text of the one before it,
      the first one with the vector. */
  lemma {:induction false} EncryptChains(c: Cipher, iv: Block, d: bytes, i: nat)
    requires |d| % BLOCK == 0 && BLOCK * (i + 1) <= |d|
    ensures var r := Encrypt(c, iv, d);
            BlockAt(r, i) == c.enc(Xor(BlockAt(d, i), if i == 0 then iv else BlockAt(r, i - 1)))
    decreases i
  {
    var x: Block, r := c.enc(Xor(d[..BLOCK], iv)), Encrypt(c, iv, d);
    assert BlockAt(d, 0) == d[..BLOCK] && BlockAt(r, 0) == x && r[BLOCK..] == Encrypt(c, x, d[BLOCK..]);
    if i > 0 {
      EncryptChains(c, x, d[BLOCK..], i - 1);
      BlockShift(d, i - 1);
      BlockShift(r, i - 1);
      if i > 1 { BlockShift(r, i - 2); }
    }
  }

  /** Each block is deciphered and then combined with the cipher text of the one before it. */
  lemma {:induction false} DecryptChains(c: Cipher, iv: Block, d: bytes, i: nat)
    requires |d| % BLOCK == 0 && BLOCK * (i + 1) <= |d|
    ensures BlockAt(Decrypt(c, iv, d), i) == Xor(c.dec(BlockAt(d, i)), if i == 0 then iv else BlockAt(d, i - 1))
    decreases i
  {
    var r := Decrypt(c, iv, d);
    assert BlockAt(d, 0) == d[..BLOCK] && BlockAt(r, 0) == Xor(c.dec(d[..BLOCK]), iv);
    assert r[BLOCK..] == Decrypt(c, d[..BLOCK], d[BLOCK..]);
    if i > 0 {
      DecryptChains(c, d[..BLOCK], d[BLOCK..], i - 1);
      BlockShift(d, i - 1);
      BlockShift(r, i - 1);
      if i > 1 { BlockShift(d, i - 2); }
    }
  }

  lemma BlockShift(d: bytes, i: nat)
    requires BLOCK * (i + 2) <= |d|
    ensures BlockAt(d[BLOCK..], i) == BlockAt(d, i + 1)
  {
  }

  lemma {:induction false} DecryptEncrypt(c: Cipher, iv: Block, d: bytes)
    requires IsPermutation(c) && |d| % BLOCK == 0
    ensures Decrypt(c, iv, Encrypt(c, iv, d)) == d
    decreases |d|
  {
    if |d| >= BLOCK {
      var x: Block := c.enc(Xor(d[..BLOCK], iv));
      var rest: bytes := Encrypt(c, x, d[BLOCK..]);
      var all: bytes := x + rest;
      assert all[..BLOCK] == x && all[BLOCK..] == rest;
      XorTwice(d[..BLOCK], iv);
      DecryptEncrypt(c, x, d[BLOCK..]);
      assert d == d[..BLOCK] + d[BLOCK..];
    }
  }

  lemma {:induction false} EncryptDecrypt(c: Cipher, iv: Block, d: bytes)
    requires IsPermutation(c) && |d| % BLOCK == 0
    ensures Encrypt(c, iv, Decrypt(c, iv, d)) == d
    decreases |d|
  {
    if |d| >= BLOCK {
      var x: Block := d[..BLOCK];
      var p: Block, rest: bytes := Xor(c.dec(x), iv), Decrypt(c, x, d[BLOCK..]);
      var all: bytes := p + rest;
      assert all[..BLOCK] == p && all[BLOCK..] == rest;
      XorTwice(c.dec(x), iv);
      EncryptDecrypt(c, x, d[BLOCK..]);
      assert d == d[..BLOCK] + d[BLOCK..];
    }
  }

  // Framing ------------------------------------------------------------------------------

  /** The key of the process: 32 bytes from the environment, none set, or one that is not a key. */
  datatype Key = Loaded(key: bytes) | NotSet | Invalid

  predicate ValidKey(k: Key) {
    k.Loaded? ==> |k.key| == 32
  }

  function KeyFrom(lib: Library, env: string): (k: Key)
    ensures ValidKey(k)
  {
    if env == "" then NotSet
    else if lib.decode(env).None? || |lib.decode(env).value| != 32 then Invalid
    else Loaded(lib.decode(env).value)
  }

  /** The key comes from the environment: there is none when the variable is empty, and anything
      but 32 encoded bytes is no key. */
  lemma KeyIs(lib: Library, env: string)
    ensures env == "" ==> KeyFrom(lib, env) == NotSet
    ensures env != "" && lib.decode(env).None? ==> KeyFrom(lib, env) == Invalid
    ensures forall key :: env != "" && lib.decode(env) == Some(key) ==>
              KeyFrom(lib, env) == if |key| == 32 then Loaded(key) else Invalid
  {
  }

  function Frame(lib: Library, key: bytes, iv: Block, password: bytes): bytes {
    MAGIC + iv + Encrypt(lib.cipher(key), iv, Pad(password))
  }

  function AesEncrypt(lib: Library, k: Key, iv: Block, password: bytes): Result<string, Error> {
    match k
    case Invalid => Err(KeyNotLoaded)
    case NotSet => Err(KeyNotSet)
    case Loaded(key) => Ok(lib.encode(Frame(lib, key, iv, password)))
  }

  function OpenFrame(lib: Library, k: Key, rest: bytes): Result<bytes, Error> {
    match k
    case Invalid => Err(KeyNotLoaded)
    case NotSet => Err(KeyNotSet)
    case Loaded(key) =>
      if |rest| <= BLOCK || |rest| % BLOCK != 0 then Err(BadLength)
      else Unpad(Decrypt(lib.cipher(key), rest[..BLOCK], rest[BLOCK..]))
  }

  function OpenLegacy(lib: Library, data: bytes): Result<bytes, Error> {
    if |data| == 0 || |data| % BLOCK != 0 then Err(BadLength)
    else Unpad(Decrypt(lib.cipher(LEGACY_KEY), LEGACY_KEY, data))
  }

  function AesDecrypt(lib: Library, k: Key, text: string): Result<bytes, Error> {
    match lib.decode(text)
    case None => Err(BadEncoding)
    case Some(data) => if MAGIC <= data then OpenFrame(lib, k, data[|MAGIC|..]) else OpenLegacy(lib, data)
  }

  /** What is refused, and why: new passwords without a key, text that is not encoded, framed text
      without a key, and cipher text that is not one block at least. */
  lemma Refusals(lib: Library, k: Key, iv: Block, password: bytes, text: string)
    ensures k == NotSet ==> AesEncrypt(lib, k, iv, password) == Err(KeyNotSet)
    ensures k == Invalid ==> AesEncrypt(lib, k, iv, password) == Err(KeyNotLoaded)
    ensures lib.decode(text).None? ==> AesDecrypt(lib, k, text) == Err(BadEncoding)
    ensures lib.decode(text).Some? ==>
              var data := lib.decode(text).value;
              var framed := |data| >= 4 && data[..4] == [0x4F, 0x46, 0x4D, 0x4B];
              && (framed && k == NotSet ==> AesDecrypt(lib, k, text) == Err(KeyNotSet))
              && (framed && k == Invalid ==> AesDecrypt(lib, k, text) == Err(KeyNotLoaded))
              && (framed && k.Loaded? && (|data| < 36 || |data| % 16 != 4) ==>
                  AesDecrypt(lib, k, text) == Err(BadLength))
              && (!framed && (|data| < 16 || |data| % 16 != 0) ==> AesDecrypt(lib, k, text) == Err(BadLength))
  {
    if lib.decode(text).Some? {
      var data := lib.decode(text).value;
      assert MAGIC <= data <==> |data| >= 4 && data[..4] == [0x4F, 0x46, 0x4D, 0x4B];
    }
  }

  /** For every password, key and initialisation vector, decryption undoes encryption. */
  lemma RoundTrip(lib: Library, k: Key, iv: Block, password: bytes)
    requires ValidLibrary(lib) && k.Loaded?
    ensures AesEncrypt(lib, k, iv, password).Ok?
    ensures AesDecrypt(lib, k, AesEncrypt(lib, k, iv, password).value) == Ok(password)
  {
    var c := lib.cipher(k.key);
    var crypted := Encrypt(c, iv, Pad(password));
    var data := Frame(lib, k.key, iv, password);
    assert data[|MAGIC|..] == iv + crypted;
    assert (iv + crypted)[..BLOCK] == iv && (iv + crypted)[BLOCK..] == crypted;
    DecryptEncrypt(c, iv, Pad(password));
    UnpadPad(password);
  }

  /** A frame that opens has the magic, a vector and at least one block. */
  lemma FrameShape(lib: Library, k: Key, data: bytes)
    requires MAGIC <= data && OpenFrame(lib, k, data[|MAGIC|..]).Ok?
    ensures |data| % BLOCK == |MAGIC| && |data| >= |MAGIC| + 2 * BLOCK
    ensures var rest := data[|MAGIC|..]; data == MAGIC + rest[..BLOCK] + rest[BLOCK..]
  {
    assert |data[|MAGIC|..]| == |data| - 4;
  }

  /** Text that opens is what encrypting its password under its own vector gives, exactly
      when its padding is uniform. */
  lemma OpenedFrame(lib: Library, key: bytes, iv: Block, crypted: bytes)
    requires ValidLibrary(lib) && |crypted| % BLOCK == 0
    requires Unpad(Decrypt(lib.cipher(key), iv, crypted)).Ok?
    ensures var plain := Decrypt(lib.cipher(key), iv, crypted);
            Frame(lib, key, iv, Unpad(plain).value) == MAGIC + iv + crypted <==> Uniform(plain)
  {
    var c := lib.cipher(key);
    var plain := Decrypt(c, iv, crypted);
    var padded := Pad(Unpad(plain).value);
    SameFrame(iv, Encrypt(c, iv, padded), crypted);
    SameCipherText(c, iv, padded, crypted);
    PadUnpad(plain);
  }

  lemma SameFrame(iv: Block, a: bytes, b: bytes)
    ensures MAGIC + iv + a == MAGIC + iv + b <==> a == b
  {
    var head: bytes := MAGIC + iv;
    assert (head + a)[|head|..] == a && (head + b)[|head|..] == b;
  }

  /** Equal cipher texts under one vector come from equal plain texts. */
  lemma SameCipherText(c: Cipher, iv: Block, d: bytes, crypted: bytes)
    requires IsPermutation(c) && |d| % BLOCK == 0 && |crypted| % BLOCK == 0
    ensures Encrypt(c, iv, d) == crypted <==> d == Decrypt(c, iv, crypted)
  {
    DecryptEncrypt(c, iv, d);
    EncryptDecrypt(c, iv, crypted);
  }

  function LegacyEncrypt(lib: Library, password: bytes): bytes {
    Encrypt(lib.cipher(LEGACY_KEY), LEGACY_KEY, Pad(password))
  }

  /** A legacy password is read back under every key of the process, unless its cipher text
      happens to begin with the magic; then it is rejected, never decoded under another key. */
  lemma LegacyRoundTrip(lib: Library, k: Key, password: bytes)
    requires ValidLibrary(lib)
    ensures var r := AesDecrypt(lib, k, lib.encode(LegacyEncrypt(lib, password)));
            if MAGIC <= LegacyEncrypt(lib, password) then r.Err? else r == Ok(password)
  {
    DecryptEncrypt(lib.cipher(LEGACY_KEY), LEGACY_KEY, Pad(password));
    UnpadPad(password);
    if MAGIC <= LegacyEncrypt(lib, password) {
      LegacyNeverFramed(lib, k, LegacyEncrypt(lib, password));
    }
  }

  /** Any text of legacy length that begins with the magic fails the length test. */
  lemma LegacyNeverFramed(lib: Library, k: Key, data: bytes)
    requires |data| % BLOCK == 0 && MAGIC <= data
    ensures OpenFrame(lib, k, data[|MAGIC|..]).Err?
    ensures k.Loaded? ==> OpenFrame(lib, k, data[|MAGIC|..]) == Err(BadLength)
  {
    assert |data[|MAGIC|..]| == |data| - 4;
  }

  // The package with its key state -------------------------------------------------------

  class Security {
    const lib: Library
    const env: string      // BKE_PASSWORD_ENCRYPTION_KEY
    var loaded: bool       // the sync.Once is used up
    var currentKey: bytes
    var failed: bool

    constructor (lib: Library, env: string)
      ensures this.lib == lib && this.env == env && Valid()
    {
      this.lib, this.env := lib, env;
      loaded, currentKey, failed := false, [], false;
    }

    /** The key state is that of the environment once it is loaded. */
    predicate Valid()
      reads this
    {
      loaded ==> match KeyFrom(lib, env)
                 case NotSet => !failed && currentKey == LEGACY_KEY
                 case Invalid => failed && currentKey == []
                 case Loaded(key) => !failed && currentKey == key
    }

    method LoadKey() returns (k: Result<bytes, Error>)
      requires Valid()
      modifies this
      ensures Valid() && loaded && (old(loaded) ==> currentKey == old(currentKey) && failed == old(failed))
      ensures k == if failed then Err(KeyNotLoaded) else Ok(currentKey)
    {
      if !loaded {
        loaded, failed, currentKey := true, false, [];
        if env != "" {
          var decoded := lib.decode(env);
          if decoded.None? || |decoded.value| != 32 { failed := true; } else { currentKey := decoded.value; }
        } else {
          currentKey := LEGACY_KEY;
        }
      }
      k := if failed then Err(KeyNotLoaded) else Ok(currentKey);
    }

    method EncryptPassword(password: bytes, iv: Block) returns (r: Result<string, Error>)
      requires Valid()
      modifies this
      ensures Valid() && r == AesEncrypt(lib, KeyFrom(lib, env), iv, password)
    {
      var k := LoadKey();
      if k.Err? { return Err(k.error); }
      if currentKey == LEGACY_KEY { return Err(KeyNotSet); }
      var crypted := Encrypt(lib.cipher(k.value), iv, Pad(password));
      r := Ok(lib.encode(MAGIC + iv + crypted));
    }

    method DecryptPassword(text: string) returns (r: Result<bytes, Error>)
      requires Valid()
      modifies this
      ensures Valid() && r == AesDecrypt(lib, KeyFrom(lib, env), text)
    {
      var decoded := lib.decode(text);
      if decoded.None? { return Err(BadEncoding); }
      var data := decoded.value;
      if MAGIC <= data {
        var k := LoadKey();
        if k.Err? { return Err(k.error); }
        if currentKey == LEGACY_KEY { return Err(KeyNotSet); }
        var rest := data[|MAGIC|..];
        if |rest| <= BLOCK || |rest| % BLOCK != 0 { return Err(BadLength); }
        var iv, crypted := rest[..BLOCK], rest[BLOCK..];
        return Unpad(Decrypt(lib.cipher(k.value), iv, crypted));
      }
      if |data| == 0 || |data| % BLOCK != 0 { return Err(BadLength); }
      r := Unpad(Decrypt(lib.cipher(LEGACY_KEY), LEGACY_KEY, data));
    }
  }
}
