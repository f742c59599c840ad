/**
 * src/lib/crypto.js: payload encryption. The library calls (JSON, deflate/inflate, AES,
 * UTF-8 decoding) are parameters; the conversion between 32-bit words and bytes, which
 * the module does itself, is modelled in full.
 */
module Crypto {
  import opened Wrappers

  /** A Uint8Array element. */
  type byte = bv8

  /** A CryptoJS WordArray: big-endian 32-bit words and the count of significant bytes. */
  datatype WordArray = WordArray(words: seq<bv32>, sigBytes: int)

  /** Word k of a word list; a missing word reads as 0, as `undefined >>> n` does. */
  function WordAt(words: seq<bv32>, k: nat): bv32 {
    if k < |words| then words[k] else 0
  }

  /** Byte j of a word, counting from the most significant: `(w >>> (24 - j * 8)) & 0xff`. */
  function ByteOfWord(w: bv32, j: nat): byte
    requires j < 4
  {
    if j == 0 then ((w >> 24) & 0xff) as byte
    else if j == 1 then ((w >> 16) & 0xff) as byte
    else if j == 2 then ((w >> 8) & 0xff) as byte
    else (w & 0xff) as byte
  }

  /** `(words[i >>> 2] >>> (24 - (i % 4) * 8)) & 0xff`. */
  function ByteAt(words: seq<bv32>, i: nat): byte {
    ByteOfWord(WordAt(words, i / 4), i % 4)
  }

  /** The bytes the unpacking loop writes: byte i is taken from word i / 4, high byte first. */
  function Unpacked(words: seq<bv32>, sigBytes: nat): (r: seq<byte>)
    ensures |r| == sigBytes
  {
    seq(sigBytes, i requires 0 <= i < sigBytes => ByteAt(words, i))
  }

  /** The loop of decryptData: fills a fresh `Uint8Array(sigBytes)` byte by byte. */
  method UnpackBytes(words: seq<bv32>, sigBytes: nat) returns (u8: array<byte>)
    ensures fresh(u8)
    ensures u8[..] == Unpacked(words, sigBytes)
  {
    u8 := new byte[sigBytes];
    var i := 0;
    while i < sigBytes
      invariant 0 <= i <= sigBytes
      invariant forall k :: 0 <= k < i ==> u8[k] == ByteAt(words, k)
    {
      u8[i] := ByteAt(words, i);
      i := i + 1;
    }
  }

  /** Only the first ceil(sigBytes / 4) words are read. */
  lemma UnpackedReadsPrefix(words: seq<bv32>, other: seq<bv32>, sigBytes: nat)
    requires forall k :: 0 <= k < (sigBytes + 3) / 4 ==> WordAt(words, k) == WordAt(other, k)
    ensures Unpacked(words, sigBytes) == Unpacked(other, sigBytes)
  {
    forall i | 0 <= i < sigBytes ensures ByteAt(words, i) == ByteAt(other, i) {
      assert i / 4 < (sigBytes + 3) / 4;
    }
  }

  /** Byte i of a byte list, 0 past the end. */
  function Narrowed(bytes: seq<byte>, i: nat): byte {
    if i < |bytes| then bytes[i] else 0
  }

  /** Word k of `WordArray.create(bytes)`: bytes 4k .. 4k+3, most significant first. */
  function PackWord(bytes: seq<byte>, k: nat): bv32 {
    ((Narrowed(bytes, 4 * k) as bv32) << 24) | ((Narrowed(bytes, 4 * k + 1) as bv32) << 16)
    | ((Narrowed(bytes, 4 * k + 2) as bv32) << 8) | (Narrowed(bytes, 4 * k + 3) as bv32)
  }

  /** `WordArray.create(bytes)`: the bytes packed big-endian, with their count. */
  function Pack(bytes: seq<byte>): (w: WordArray)
    ensures |w.words| == (|bytes| + 3) / 4 && w.sigBytes == |bytes|
  {
    WordArray(seq((|bytes| + 3) / 4, k requires 0 <= k => PackWord(bytes, k)), |bytes|)
  }

  /** Each of the four bytes packed into a word is read back from its position. */
  lemma ExtractByte(x0: byte, x1: byte, x2: byte, x3: byte)
    ensures var w := ((x0 as bv32) << 24) | ((x1 as bv32) << 16) | ((x2 as bv32) << 8) | (x3 as bv32);
            && ByteOfWord(w, 0) == x0 && ByteOfWord(w, 1) == x1
            && ByteOfWord(w, 2) == x2 && ByteOfWord(w, 3) == x3
  {
  }

  /** Byte j of packed word k is byte 4k + j of the input. */
  lemma PackWordByte(bytes: seq<byte>, k: nat, j: nat)
    requires j < 4
    ensures ByteOfWord(PackWord(bytes, k), j) == Narrowed(bytes, 4 * k + j)
  {
    ExtractByte(Narrowed(bytes, 4 * k), Narrowed(bytes, 4 * k + 1), Narrowed(bytes, 4 * k + 2), Narrowed(bytes, 4 * k + 3));
  }

  /** Byte i of the packed words is byte i of the input. */
  lemma PackedByte(bytes: seq<byte>, i: nat)
    requires i < |bytes|
    ensures ByteAt(Pack(bytes).words, i) == bytes[i]
  {
    var k, j := i / 4, i % 4;
    assert 4 * k + j == i;
    assert k < |Pack(bytes).words|;
    assert WordAt(Pack(bytes).words, k) == PackWord(bytes, k);
    PackWordByte(bytes, k, j);
  }

  /** Unpacking inverts packing: the loop gives back the bytes WordArray.create was given. */
  lemma UnpackPack(bytes: seq<byte>)
    ensures Unpacked(Pack(bytes).words, Pack(bytes).sigBytes) == bytes
  {
    forall i | 0 <= i < |bytes| ensures Unpacked(Pack(bytes).words, Pack(bytes).sigBytes)[i] == bytes[i] {
      PackedByte(bytes, i);
    }
  }

  /**
   * The libraries decryptData and encryptData call, over payload values of type V:
   * JSON.stringify and JSON.parse, pako.deflate (of a string) and pako.inflate,
   * UTF-8 decoding, and AES encryption and decryption with a passphrase. A call that
   * throws answers Err.
   */
  datatype CryptoLib<!V> = CryptoLib(
    stringify: V -> string,
    parse: string -> Result<V>,
    deflate: string -> seq<byte>,
    inflate: seq<byte> -> Result<seq<byte>>,
    decodeUtf8: seq<byte> -> string,
    encrypt: (WordArray, string) -> Result<string>,
    decrypt: (string, string) -> Result<WordArray>)

  /** The significant bytes of a word array, None for a negative count. */
  function Bytes(w: WordArray): Option<seq<byte>> {
    if w.sigBytes < 0 then None else Some(Unpacked(w.words, w.sigBytes))
  }

  /** What the round trip assumes of the libraries: each stage reads back what it wrote. */
  ghost predicate LawfulLib<V(!new)>(lib: CryptoLib<V>) {
    && (forall v :: lib.parse(lib.stringify(v)) == Ok(v))
    && (forall s :: lib.inflate(lib.deflate(s)).Ok? && lib.decodeUtf8(lib.inflate(lib.deflate(s)).value) == s)
    && (forall w, key :: lib.encrypt(w, key).Ok? && w.sigBytes >= 0 ==>
          lib.decrypt(lib.encrypt(w, key).value, key).Ok?
          && Bytes(lib.decrypt(lib.encrypt(w, key).value, key).value) == Bytes(w))
  }

  /** encryptData: stringify, deflate, wrap the bytes as words, encrypt; any failure is passed on. */
  function EncryptData<V>(lib: CryptoLib<V>, data: V, key: string): Result<string> {
    lib.encrypt(Pack(lib.deflate(lib.stringify(data))), key)
  }

  /** decryptData as a value: decrypt, unpack the significant bytes, inflate, decode, parse. */
  function Decrypted<V>(lib: CryptoLib<V>, encrypted: string, key: string): (r: Result<V>)
    ensures lib.decrypt(encrypted, key).Err? ==> r == Err(lib.decrypt(encrypted, key).error)
    ensures lib.decrypt(encrypted, key).Ok? && lib.decrypt(encrypted, key).value.sigBytes < 0 ==> r == Err(RangeError)
    ensures r.Ok? ==> Bytes(lib.decrypt(encrypted, key).value).Some?
                      && lib.inflate(Bytes(lib.decrypt(encrypted, key).value).value).Ok?
  {
    match lib.decrypt(encrypted, key)
    case Err(e) => Err(e)
    case Ok(w) =>
      if w.sigBytes < 0 then Err(RangeError)   // `new Uint8Array(-1)` throws
      else
        match lib.inflate(Unpacked(w.words, w.sigBytes))
        case Err(e) => Err(e)
        case Ok(raw) => lib.parse(lib.decodeUtf8(raw))
  }

  /** decryptData: the same stages, with the bytes unpacked into a fresh array by the loop. */
  method DecryptData<V>(lib: CryptoLib<V>, encrypted: string, key: string) returns (r: Result<V>)
    ensures r == Decrypted(lib, encrypted, key)
  {
    var decrypted := lib.decrypt(encrypted, key);
    if decrypted.Err? {
      return Err(decrypted.error);
    }
    var w := decrypted.value;
    if w.sigBytes < 0 {
      return Err(RangeError);
    }
    var u8 := UnpackBytes(w.words, w.sigBytes);
    var inflated := lib.inflate(u8[..]);
    if inflated.Err? {
      return Err(inflated.error);
    }
    return lib.parse(lib.decodeUtf8(inflated.value));
  }

  /** With lawful libraries, decrypting what encryptData produced gives back the payload. */
  lemma EncryptDecrypt<V(!new)>(lib: CryptoLib<V>, data: V, key: string)
    requires LawfulLib(lib) && EncryptData(lib, data, key).Ok?
    ensures Decrypted(lib, EncryptData(lib, data, key).value, key) == Ok(data)
  {
    var s := lib.stringify(data);
    var bytes := lib.deflate(s);
    var w := Pack(bytes);
    UnpackPack(bytes);
    var c := EncryptData(lib, data, key).value;
    assert lib.encrypt(w, key).Ok?;
    var back := lib.decrypt(c, key).value;
    assert Bytes(back) == Bytes(w) == Some(bytes);
    assert Unpacked(back.words, back.sigBytes) == bytes;
    assert lib.decodeUtf8(lib.inflate(bytes).value) == s;
  }
}
