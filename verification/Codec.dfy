/** The encrypted snapshot container: a plaintext header followed by length-prefixed,
  * individually authenticated records (robothor/snapshot.py:254-416).
  */
module Codec {
  import opened Wrappers
  import opened Bytes
  import opened Json

  /** "GENUSSNAP", version 1, newline. */
  const MAGIC: bytes := [71, 69, 78, 85, 83, 83, 78, 65, 80, 1, 10]
  const CHUNK_SIZE: nat := 0x10_0000
  const TAG_SIZE: nat := 16
  const MAX_RECORDS: nat := WORD_LIMIT
  const SIZE_LIMIT: nat := 0x10_0000 * 0x1_0000_0000
  const MAX_HEADER: nat := 65535
  const MIN_PASSPHRASE: nat := 12
  const KDF_N := 32768
  const KDF_R := 8
  const KDF_P := 1
  const SALT_SIZE: nat := 16
  const PREFIX_SIZE: nat := 8

  datatype Error =
    | WeakPassphrase
    | HeaderTooLarge
    | TooLarge
    | SourceChanged
    | DestinationExists
    | Integrity

  /** The library functions the container is built on. */
  datatype Primitives = Primitives(
    encrypt: (bytes, bytes, bytes, bytes) -> bytes,         // key, nonce, plaintext, associated data
    decrypt: (bytes, bytes, bytes, bytes) -> Option<bytes>, // key, nonce, ciphertext, associated data
    deriveKey: (string, bytes) -> bytes,
    printJson: Json -> bytes,
    parseJson: bytes -> Option<Json>,
    printBase64: bytes -> string,
    parseBase64: string -> Option<bytes>)
  {
    /** Authenticated encryption appends a tag and opens only what it sealed (section 7.2 of
      * NIST SP 800-38D); JSON and base64 read back what they wrote, and no JSON text is empty.
      */
    ghost predicate Lawful() {
      && (forall k, n, p, ad :: |encrypt(k, n, p, ad)| == |p| + TAG_SIZE)
      && (forall k, n, p, ad :: decrypt(k, n, encrypt(k, n, p, ad), ad) == Some(p))
      && (forall k, n, c, ad :: decrypt(k, n, c, ad).Some? ==> c == encrypt(k, n, decrypt(k, n, c, ad).value, ad))
      && (forall j :: parseJson(printJson(j)) == Some(j))
      && parseJson([]) == None
      && (forall b :: parseBase64(printBase64(b)) == Some(b))
    }
  }

  // ----- Record stream -----

  /** How many plaintext bytes the records from number `counter` on can hold. */
  function Capacity(counter: nat): nat
    requires counter <= MAX_RECORDS
  {
    (0x1_0000_0000 - counter) * 0x10_0000
  }

  function Nonce(prefix: bytes, counter: nat): bytes
    requires counter < MAX_RECORDS
  {
    prefix + Word(counter)
  }

  function Seal(c: Primitives, key: bytes, prefix: bytes, ad: bytes, chunk: bytes, counter: nat): (r: bytes)
    requires c.Lawful() && counter < MAX_RECORDS && |chunk| <= CHUNK_SIZE
    ensures |r| == 4 + |chunk| + TAG_SIZE
  {
    var sealed := c.encrypt(key, Nonce(prefix, counter), chunk, ad + Word(counter));
    Word(|sealed|) + sealed
  }

  /** The one record stream that stands for `plain`, numbering records from `counter`. */
  function Records(c: Primitives, key: bytes, prefix: bytes, ad: bytes, plain: bytes, counter: nat): bytes
    requires c.Lawful() && counter <= MAX_RECORDS
    requires |plain| <= Capacity(counter)
    decreases |plain|
  {
    if plain == [] then [] else
      var k := Min(CHUNK_SIZE, |plain|);
      Seal(c, key, prefix, ad, plain[..k], counter) + Records(c, key, prefix, ad, plain[k..], counter + 1)
  }

  function RecordCount(n: nat): nat {
    (n + 0xF_FFFF) / 0x10_0000
  }

  /** The plaintext of the record at the head of `stream`, which must be `expected` bytes long. */
  function UnsealOne(c: Primitives, key: bytes, prefix: bytes, ad: bytes, stream: bytes, expected: nat, counter: nat)
    : (chunk: Option<bytes>)
    requires counter < MAX_RECORDS
    ensures chunk.Some? ==> |chunk.value| == expected && |stream| >= 4 + expected + TAG_SIZE
  {
    if |stream| < 4 || Value(stream[..4]) != expected + TAG_SIZE || |stream| < 4 + expected + TAG_SIZE then None
    else
      var chunk := c.decrypt(key, Nonce(prefix, counter), stream[4..4 + expected + TAG_SIZE], ad + Word(counter));
      if chunk.Some? && |chunk.value| == expected then chunk else None
  }

  /** What the reader makes of a stream that must hold exactly `remaining` plaintext bytes. */
  function Unseal(c: Primitives, key: bytes, prefix: bytes, ad: bytes, stream: bytes, remaining: nat, counter: nat)
    : Option<bytes>
    requires counter <= MAX_RECORDS && remaining <= Capacity(counter)
    decreases remaining
  {
    if remaining == 0 then
      if stream == [] then Some([]) else None
    else
      var k := Min(CHUNK_SIZE, remaining);
      var chunk := UnsealOne(c, key, prefix, ad, stream, k, counter);
      if chunk.None? then None else
        var rest := Unseal(c, key, prefix, ad, stream[4 + k + TAG_SIZE..], remaining - k, counter + 1);
        if rest.None? then None else Some(chunk.value + rest.value)
  }

  lemma UnsealOneSound(c: Primitives, key: bytes, prefix: bytes, ad: bytes, stream: bytes, expected: nat, counter: nat)
    requires c.Lawful() && counter < MAX_RECORDS && expected <= CHUNK_SIZE
    requires UnsealOne(c, key, prefix, ad, stream, expected, counter).Some?
    ensures var chunk := UnsealOne(c, key, prefix, ad, stream, expected, counter).value;
            stream == Seal(c, key, prefix, ad, chunk, counter) + stream[4 + expected + TAG_SIZE..]
  {
    WordOfValue(stream[..4]);
    assert stream == stream[..4] + stream[4..4 + expected + TAG_SIZE] + stream[4 + expected + TAG_SIZE..];
  }

  lemma UnsealOneComplete(c: Primitives, key: bytes, prefix: bytes, ad: bytes, chunk: bytes, tail: bytes, counter: nat)
    requires c.Lawful() && counter < MAX_RECORDS && |chunk| <= CHUNK_SIZE
    ensures var stream := Seal(c, key, prefix, ad, chunk, counter) + tail;
            && UnsealOne(c, key, prefix, ad, stream, |chunk|, counter) == Some(chunk)
            && stream[4 + |chunk| + TAG_SIZE..] == tail
  {
    var sealed := c.encrypt(key, Nonce(prefix, counter), chunk, ad + Word(counter));
    var stream := Seal(c, key, prefix, ad, chunk, counter) + tail;
    assert stream == Word(|sealed|) + sealed + tail;
    assert stream[..4] == Word(|sealed|) && stream[4..4 + |sealed|] == sealed;
  }

  lemma RecordCountStep(n: nat)
    requires n > 0
    ensures RecordCount(n) == 1 + RecordCount(n - Min(CHUNK_SIZE, n))
  {
  }

  lemma FirstRecord(c: Primitives, key: bytes, prefix: bytes, ad: bytes, plain: bytes, counter: nat)
    requires c.Lawful() && counter < MAX_RECORDS && 0 < |plain| <= Capacity(counter)
    ensures var k := Min(CHUNK_SIZE, |plain|);
            && |plain[k..]| <= Capacity(counter + 1)
            && |Records(c, key, prefix, ad, plain, counter)|
               == 20 + k + |Records(c, key, prefix, ad, plain[k..], counter + 1)|
  {
  }

  lemma {:induction false} RecordsLength(c: Primitives, key: bytes, prefix: bytes, ad: bytes, plain: bytes, counter: nat)
    requires c.Lawful() && counter <= MAX_RECORDS
    requires |plain| <= Capacity(counter)
    ensures |Records(c, key, prefix, ad, plain, counter)| == |plain| + 20 * RecordCount(|plain|)
    decreases |plain|
  {
    if plain == [] {
      return;
    }
    RecordsLength(c, key, prefix, ad, plain[Min(CHUNK_SIZE, |plain|)..], counter + 1);
    FirstLength(c, key, prefix, ad, plain, counter);
  }

  lemma FirstLength(c: Primitives, key: bytes, prefix: bytes, ad: bytes, plain: bytes, counter: nat)
    requires c.Lawful() && counter < MAX_RECORDS && 0 < |plain| <= Capacity(counter)
    ensures var rest := plain[Min(CHUNK_SIZE, |plain|)..];
            && |rest| <= Capacity(counter + 1)
            && (|Records(c, key, prefix, ad, rest, counter + 1)| == |rest| + 20 * RecordCount(|rest|) ==>
                 |Records(c, key, prefix, ad, plain, counter)| == |plain| + 20 * RecordCount(|plain|))
  {
    FirstRecord(c, key, prefix, ad, plain, counter);
    RecordCountStep(|plain|);
  }

  lemma {:induction false} UnsealSound(
    c: Primitives, key: bytes, prefix: bytes, ad: bytes, stream: bytes, n: nat, counter: nat)
    requires c.Lawful() && counter <= MAX_RECORDS && n <= Capacity(counter)
    requires Unseal(c, key, prefix, ad, stream, n, counter).Some?
    ensures var plain := Unseal(c, key, prefix, ad, stream, n, counter).value;
            |plain| == n && stream == Records(c, key, prefix, ad, plain, counter)
    decreases n
  {
    if n > 0 {
      var k := Min(CHUNK_SIZE, n);
      UnsealSound(c, key, prefix, ad, stream[4 + k + TAG_SIZE..], n - k, counter + 1);
      FirstUnsealed(c, key, prefix, ad, stream, n, counter);
    }
  }

  lemma FirstUnsealed(c: Primitives, key: bytes, prefix: bytes, ad: bytes, stream: bytes, n: nat, counter: nat)
    requires c.Lawful() && counter < MAX_RECORDS && 0 < n <= Capacity(counter)
    requires Unseal(c, key, prefix, ad, stream, n, counter).Some?
    requires var k := Min(CHUNK_SIZE, n);
             var rest := Unseal(c, key, prefix, ad, stream[4 + k + TAG_SIZE..], n - k, counter + 1);
             && rest.Some? && |rest.value| == n - k
             && stream[4 + k + TAG_SIZE..] == Records(c, key, prefix, ad, rest.value, counter + 1)
    ensures var plain := Unseal(c, key, prefix, ad, stream, n, counter).value;
            |plain| == n && stream == Records(c, key, prefix, ad, plain, counter)
  {
    var k := Min(CHUNK_SIZE, n);
    var chunk := UnsealOne(c, key, prefix, ad, stream, k, counter).value;
    var rest := Unseal(c, key, prefix, ad, stream[4 + k + TAG_SIZE..], n - k, counter + 1).value;
    UnsealOneSound(c, key, prefix, ad, stream, k, counter);
    assert (chunk + rest)[..k] == chunk && (chunk + rest)[k..] == rest;
  }

  lemma UnsealCons(
    c: Primitives, key: bytes, prefix: bytes, ad: bytes, first: bytes, rest: bytes, tail: bytes, counter: nat)
    requires c.Lawful() && counter < MAX_RECORDS && |first| + |rest| <= Capacity(counter)
    requires 0 < |first| == Min(CHUNK_SIZE, |first| + |rest|)
    requires Unseal(c, key, prefix, ad, tail, |rest|, counter + 1) == Some(rest)
    ensures Unseal(c, key, prefix, ad, Seal(c, key, prefix, ad, first, counter) + tail, |first| + |rest|, counter) ==
            Some(first + rest)
  {
    UnsealOneComplete(c, key, prefix, ad, first, tail, counter);
  }

  lemma {:induction false} UnsealComplete(
    c: Primitives, key: bytes, prefix: bytes, ad: bytes, plain: bytes, counter: nat)
    requires c.Lawful() && counter <= MAX_RECORDS && |plain| <= Capacity(counter)
    ensures Unseal(c, key, prefix, ad, Records(c, key, prefix, ad, plain, counter), |plain|, counter) == Some(plain)
    decreases |plain|
  {
    if plain != [] {
      var k := Min(CHUNK_SIZE, |plain|);
      var first, rest := plain[..k], plain[k..];
      assert first + rest == plain;
      UnsealComplete(c, key, prefix, ad, rest, counter + 1);
      UnsealCons(c, key, prefix, ad, first, rest, Records(c, key, prefix, ad, rest, counter + 1), counter);
    }
  }

  /** The reader returns `plain` for the record stream of `plain` and for no other stream. */
  lemma UnsealExact(
    c: Primitives, key: bytes, prefix: bytes, ad: bytes, stream: bytes, plain: bytes, n: nat, counter: nat)
    requires c.Lawful() && counter <= MAX_RECORDS && n <= Capacity(counter)
    ensures Unseal(c, key, prefix, ad, stream, n, counter) == Some(plain) <==>
            |plain| == n && stream == Records(c, key, prefix, ad, plain, counter)
  {
    if Unseal(c, key, prefix, ad, stream, n, counter).Some? {
      UnsealSound(c, key, prefix, ad, stream, n, counter);
    }
    if |plain| == n && stream == Records(c, key, prefix, ad, plain, counter) {
      UnsealComplete(c, key, prefix, ad, plain, counter);
    }
  }

  /** What a stream starts with, and what follows: a big-endian length, then the next mebibyte of the plaintext, or what is
    * left of it, sealed under the record's own number; then, 20 bytes further, the stream of the rest under the next one.
    */
  lemma StreamStarts(c: Primitives, key: bytes, prefix: bytes, ad: bytes, plain: bytes, counter: nat)
    requires c.Lawful() && counter <= MAX_RECORDS && 0 < |plain| <= Capacity(counter)
    ensures counter < 0x1_0000_0000 && |plain| - Min(1048576, |plain|) <= Capacity(counter + 1)
    ensures var stream, n := Records(c, key, prefix, ad, plain, counter), Min(1048576, |plain|);
            && n + 20 <= |stream| && Value(stream[..4]) == n + 16
            && stream[4..n + 20] == c.encrypt(key, prefix + Word(counter), plain[..n], ad + Word(counter))
            && stream[n + 20..] == Records(c, key, prefix, ad, plain[n..], counter + 1)
  {
    var n := Min(CHUNK_SIZE, |plain|);
    var sealed := c.encrypt(key, Nonce(prefix, counter), plain[..n], ad + Word(counter));
    var rest := Records(c, key, prefix, ad, plain[n..], counter + 1);
    var stream := Records(c, key, prefix, ad, plain, counter);
    assert stream == Word(|sealed|) + sealed + rest;
    assert stream[..4] == Word(|sealed|) && stream[4..n + 20] == sealed && stream[n + 20..] == rest;
  }

  // ----- Header -----

  datatype Header = Header(size: nat, salt: bytes, prefix: bytes)

  ghost predicate ValidHeader(h: Header) {
    0 < h.size <= SIZE_LIMIT && |h.salt| == SALT_SIZE && |h.prefix| == PREFIX_SIZE
  }

  function HeaderJson(c: Primitives, size: nat, salt: bytes, prefix: bytes): Json {
    Obj(map[
      "cipher" := Str("AES-256-GCM-CHUNKED"),
      "kdf" := Str("scrypt"),
      "n" := Int(KDF_N),
      "r" := Int(KDF_R),
      "p" := Int(KDF_P),
      "chunk_size" := Int(CHUNK_SIZE),
      "plaintext_size" := Int(size),
      "salt" := Str(c.printBase64(salt)),
      "nonce_prefix" := Str(c.printBase64(prefix))])
  }

  function HeaderBytes(c: Primitives, fields: map<string, Json>, name: string, expected: nat): Option<bytes> {
    match Get(fields, name)
    case Str(text) =>
      var decoded := c.parseBase64(text);
      if decoded.Some? && |decoded.value| == expected then decoded else None
    case _ => None
  }

  function ReadHeader(c: Primitives, fields: map<string, Json>): (h: Option<Header>)
    ensures h.Some? ==> ValidHeader(h.value)
  {
    var salt := HeaderBytes(c, fields, "salt", SALT_SIZE);
    var prefix := HeaderBytes(c, fields, "nonce_prefix", PREFIX_SIZE);
    if Get(fields, "cipher") != Str("AES-256-GCM-CHUNKED") || Get(fields, "kdf") != Str("scrypt")
       || !EqualsInt(Get(fields, "n"), KDF_N) || !EqualsInt(Get(fields, "r"), KDF_R)
       || !EqualsInt(Get(fields, "p"), KDF_P) || !EqualsInt(Get(fields, "chunk_size"), CHUNK_SIZE)
       || salt.None? || prefix.None?
    then None
    else match Get(fields, "plaintext_size")
      case Int(size) => if 0 < size <= SIZE_LIMIT then Some(Header(size, salt.value, prefix.value)) else None
      case _ => None
  }

  /** The checks on the raw header, in the reader's order. */
  function OpenHeader(c: Primitives, raw: bytes, passphrase: string): (r: Result<Header, Error>)
    ensures r.Ok? ==> ValidHeader(r.value)
  {
    match c.parseJson(raw)
    case Some(Obj(fields)) => (
      match ReadHeader(c, fields)
      case Some(header) => if |passphrase| < MIN_PASSPHRASE then Err(WeakPassphrase) else Ok(header)
      case None => Err(Integrity))
    case _ => Err(Integrity)
  }

  /** The header a reader makes of the fields, if any, field by field. */
  lemma HeaderExactly(c: Primitives, fields: map<string, Json>, h: Header)
    ensures ReadHeader(c, fields) == Some(h) <==>
            && Get(fields, "cipher") == Str("AES-256-GCM-CHUNKED") && Get(fields, "kdf") == Str("scrypt")
            && EqualsInt(Get(fields, "n"), 32768) && EqualsInt(Get(fields, "r"), 8) && EqualsInt(Get(fields, "p"), 1)
            && EqualsInt(Get(fields, "chunk_size"), 1048576)
            && Get(fields, "plaintext_size") == Int(h.size) && 0 < h.size <= 1048576 * 4294967296
            && Encodes(c, Get(fields, "salt"), h.salt) && |h.salt| == 16
            && Encodes(c, Get(fields, "nonce_prefix"), h.prefix) && |h.prefix| == 8
  {
  }

  ghost predicate Encodes(c: Primitives, value: Json, b: bytes) {
    exists text :: value == Str(text) && c.parseBase64(text) == Some(b)
  }

  /** Every file that decrypts starts with the format's name and version and the length of its header, and nobody
    * decrypts it with a passphrase of fewer than twelve characters.
    */
  lemma AcceptedStarts(c: Primitives, source: bytes, passphrase: string)
    requires c.Lawful() && Decrypted(c, source, passphrase).Ok?
    ensures |source| >= 15 && 1 <= Value(source[11..15]) <= 65535 && |source| > 15 + Value(source[11..15])
    ensures forall i | 0 <= i < 9 :: source[i] as char == "GENUSSNAP"[i]
    ensures source[9] == 1 && source[10] as char == '\n' && |passphrase| >= 12
  {
    var o := Open(c, source, passphrase).value;
    OpenSound(c, source, passphrase);
    AcceptedLength(c, source, passphrase);
    PreambleIs(o.raw, o.payload);
  }

  lemma PreambleIs(raw: bytes, payload: bytes)
    requires |raw| <= MAX_HEADER
    ensures var source := Preamble(raw) + payload;
            && |source| >= 15 && Value(source[11..15]) == |raw| && source[9] == 1 && source[10] as char == '\n'
            && forall i | 0 <= i < 9 :: source[i] as char == "GENUSSNAP"[i]
  {
    var source := Preamble(raw) + payload;
    assert forall i | 0 <= i < 11 :: source[i] == MAGIC[i];
    assert source[11..15] == Word(|raw|);
  }

  datatype Opening = Opening(header: Header, raw: bytes, payload: bytes)

  /** The part of the source before its record stream. */
  function Open(c: Primitives, source: bytes, passphrase: string): (r: Result<Opening, Error>)
    ensures r.Ok? ==> ValidHeader(r.value.header)
  {
    if |source| < |MAGIC| || source[..|MAGIC|] != MAGIC then Err(Integrity) else
      var afterMagic := source[|MAGIC|..];
      if |afterMagic| < 4 then Err(Integrity) else
        var length := Value(afterMagic[..4]);
        if !(1 <= length <= MAX_HEADER) || |afterMagic| - 4 < length then Err(Integrity) else
          match OpenHeader(c, afterMagic[4..4 + length], passphrase)
          case Ok(header) => Ok(Opening(header, afterMagic[4..4 + length], afterMagic[4 + length..]))
          case Err(e) => Err(e)
  }

  function Preamble(raw: bytes): bytes
    requires |raw| <= MAX_HEADER
  {
    MAGIC + Word(|raw|) + raw
  }

  /** The plaintext a reader accepts from `source`. */
  function Decrypted(c: Primitives, source: bytes, passphrase: string): Result<bytes, Error> {
    match Open(c, source, passphrase)
    case Err(e) => Err(e)
    case Ok(o) =>
      var key := c.deriveKey(passphrase, o.header.salt);
      match Unseal(c, key, o.header.prefix, MAGIC + o.raw, o.payload, o.header.size, 0)
      case Some(plain) => Ok(plain)
      case None => Err(Integrity)
  }

  /** `source` is, byte for byte, the container of `plain` under the raw header `raw`. */
  ghost predicate Canonical(c: Primitives, source: bytes, raw: bytes, passphrase: string, plain: bytes)
    requires c.Lawful()
  {
    && 1 <= |raw| <= MAX_HEADER
    && OpenHeader(c, raw, passphrase).Ok?
    && OpenHeader(c, raw, passphrase).value.size == |plain|
    && source == Container(c, raw, OpenHeader(c, raw, passphrase).value, passphrase, plain)
  }

  function Container(c: Primitives, raw: bytes, h: Header, passphrase: string, plain: bytes): bytes
    requires c.Lawful() && |raw| <= MAX_HEADER && |plain| <= SIZE_LIMIT
  {
    Preamble(raw) + Records(c, c.deriveKey(passphrase, h.salt), h.prefix, MAGIC + raw, plain, 0)
  }

  /** What the writer produces for a source whose size was `size` when it was measured. */
  function Encrypted(
    c: Primitives, size: nat, content: bytes, passphrase: string, salt: bytes, prefix: bytes)
    : Result<bytes, Error>
    requires c.Lawful()
  {
    var raw := c.printJson(HeaderJson(c, size, salt, prefix));
    if |raw| > MAX_HEADER then Err(HeaderTooLarge)
    else if |passphrase| < MIN_PASSPHRASE then Err(WeakPassphrase)
    else if |content| > SIZE_LIMIT && size >= SIZE_LIMIT then Err(TooLarge)
    else if |content| != size then Err(SourceChanged)
    else Ok(Container(c, raw, Header(size, salt, prefix), passphrase, content))
  }

  // ----- Main results -----

  lemma TwoParts(s: bytes, i: nat)
    requires i <= |s|
    ensures s == s[..i] + s[i..]
  {
  }

  lemma ThreeParts(s: bytes, i: nat, j: nat)
    requires i <= j <= |s|
    ensures s == s[..i] + s[i..j] + s[j..]
  {
  }

  lemma Assembled(source: bytes, magic: bytes, rest: bytes, word: bytes, raw: bytes, payload: bytes)
    requires source == magic + rest && rest == word + raw + payload
    ensures source == magic + word + raw + payload
  {
  }

  lemma Extended(a: bytes, b: bytes, c: bytes)
    ensures a + b + c == a + (b + c)
  {
  }

  lemma OpenSound(c: Primitives, source: bytes, passphrase: string)
    requires Open(c, source, passphrase).Ok?
    ensures var o := Open(c, source, passphrase).value;
            && 1 <= |o.raw| <= MAX_HEADER
            && OpenHeader(c, o.raw, passphrase) == Ok(o.header)
            && source == Preamble(o.raw) + o.payload
  {
    var o := Open(c, source, passphrase).value;
    var afterMagic := source[|MAGIC|..];
    WordOfValue(afterMagic[..4]);
    TwoParts(source, |MAGIC|);
    ThreeParts(afterMagic, 4, 4 + |o.raw|);
    Assembled(source, MAGIC, afterMagic, Word(|o.raw|), o.raw, o.payload);
  }

  lemma OpenComplete(c: Primitives, raw: bytes, payload: bytes, passphrase: string)
    requires 1 <= |raw| <= MAX_HEADER
    ensures Open(c, Preamble(raw) + payload, passphrase) ==
            match OpenHeader(c, raw, passphrase)
            case Ok(header) => Ok(Opening(header, raw, payload))
            case Err(e) => Err(e)
  {
    var source := Preamble(raw) + payload;
    assert source[..|MAGIC|] == MAGIC;
    var afterMagic := source[|MAGIC|..];
    assert afterMagic == Word(|raw|) + raw + payload;
    assert afterMagic[..4] == Word(|raw|);
    assert afterMagic[4..4 + |raw|] == raw;
    assert afterMagic[4 + |raw|..] == payload;
  }

  /** A reader accepts exactly the canonical containers, and returns the plaintext they stand for. */
  lemma AcceptsExactlyCanonical(c: Primitives, source: bytes, passphrase: string, plain: bytes)
    requires c.Lawful()
    ensures Decrypted(c, source, passphrase) == Ok(plain) <==>
            exists raw :: Canonical(c, source, raw, passphrase, plain)
  {
    if Decrypted(c, source, passphrase) == Ok(plain) {
      AcceptedIsCanonical(c, source, passphrase);
    }
    forall raw | Canonical(c, source, raw, passphrase, plain)
      ensures Decrypted(c, source, passphrase) == Ok(plain)
    {
      CanonicalIsAccepted(c, raw, passphrase, plain);
    }
  }

  lemma AcceptedIsCanonical(c: Primitives, source: bytes, passphrase: string)
    requires c.Lawful() && Decrypted(c, source, passphrase).Ok?
    ensures Open(c, source, passphrase).Ok?
    ensures Canonical(c, source, Open(c, source, passphrase).value.raw, passphrase, Decrypted(c, source, passphrase).value)
  {
    var o := Open(c, source, passphrase).value;
    OpenSound(c, source, passphrase);
    UnsealSound(c, c.deriveKey(passphrase, o.header.salt), o.header.prefix, MAGIC + o.raw, o.payload, o.header.size, 0);
  }

  lemma CanonicalIsAccepted(c: Primitives, raw: bytes, passphrase: string, plain: bytes)
    requires c.Lawful() && 1 <= |raw| <= MAX_HEADER
    requires OpenHeader(c, raw, passphrase).Ok? && OpenHeader(c, raw, passphrase).value.size == |plain|
    ensures Decrypted(c, Container(c, raw, OpenHeader(c, raw, passphrase).value, passphrase, plain), passphrase) == Ok(plain)
  {
    var h := OpenHeader(c, raw, passphrase).value;
    var key := c.deriveKey(passphrase, h.salt);
    OpenComplete(c, raw, Records(c, key, h.prefix, MAGIC + raw, plain, 0), passphrase);
    UnsealComplete(c, key, h.prefix, MAGIC + raw, plain, 0);
  }

  lemma ContainerLength(c: Primitives, raw: bytes, h: Header, passphrase: string, plain: bytes)
    requires c.Lawful() && |raw| <= MAX_HEADER && |plain| <= SIZE_LIMIT
    ensures |Container(c, raw, h, passphrase, plain)| == 11 + 4 + |raw| + |plain| + 20 * RecordCount(|plain|)
  {
    RecordsLength(c, c.deriveKey(passphrase, h.salt), h.prefix, MAGIC + raw, plain, 0);
  }

  lemma AcceptedLength(c: Primitives, source: bytes, passphrase: string)
    requires c.Lawful() && Decrypted(c, source, passphrase).Ok?
    ensures Open(c, source, passphrase).Ok?
    ensures var o := Open(c, source, passphrase).value;
            |source| == 11 + 4 + |o.raw| + o.header.size + 20 * RecordCount(o.header.size)
  {
    AcceptedIsCanonical(c, source, passphrase);
    OpenSound(c, source, passphrase);
    var o := Open(c, source, passphrase).value;
    ContainerLength(c, o.raw, o.header, passphrase, Decrypted(c, source, passphrase).value);
  }

  lemma OpenExtended(c: Primitives, source: bytes, tail: bytes, passphrase: string)
    requires Open(c, source, passphrase).Ok?
    ensures var o := Open(c, source, passphrase).value;
            Open(c, source + tail, passphrase) == Ok(o.(payload := o.payload + tail))
  {
    var o := Open(c, source, passphrase).value;
    OpenSound(c, source, passphrase);
    Extended(Preamble(o.raw), o.payload, tail);
    OpenComplete(c, o.raw, o.payload + tail, passphrase);
  }

  /** No file that is accepted can be extended, or cut short, into another one that is accepted. */
  lemma NoAcceptedExtension(c: Primitives, source: bytes, tail: bytes, passphrase: string)
    requires c.Lawful()
    requires Decrypted(c, source, passphrase).Ok? && Decrypted(c, source + tail, passphrase).Ok?
    ensures tail == []
  {
    AcceptedLength(c, source, passphrase);
    AcceptedLength(c, source + tail, passphrase);
    OpenExtended(c, source, tail, passphrase);
  }

  /** With the same header, two accepted files with the same plaintext are the same file: no
    * reordering, duplication or re-cutting of records goes unnoticed.
    */
  lemma SameHeaderSamePlaintextSameFile(c: Primitives, a: bytes, b: bytes, passphrase: string)
    requires c.Lawful()
    requires Decrypted(c, a, passphrase).Ok? && Decrypted(c, b, passphrase) == Decrypted(c, a, passphrase)
    requires Open(c, a, passphrase).Ok? && Open(c, b, passphrase).Ok?
    requires Open(c, a, passphrase).value.raw == Open(c, b, passphrase).value.raw
    ensures a == b
  {
    AcceptedIsCanonical(c, a, passphrase);
    AcceptedIsCanonical(c, b, passphrase);
  }

  lemma WrittenHeaderReads(c: Primitives, size: nat, passphrase: string, salt: bytes, prefix: bytes)
    requires c.Lawful() && |salt| == SALT_SIZE && |prefix| == PREFIX_SIZE && |passphrase| >= MIN_PASSPHRASE
    ensures OpenHeader(c, c.printJson(HeaderJson(c, size, salt, prefix)), passphrase) ==
            if 0 < size <= SIZE_LIMIT then Ok(Header(size, salt, prefix)) else Err(Integrity)
    ensures |c.printJson(HeaderJson(c, size, salt, prefix))| > 0
  {
    var j := HeaderJson(c, size, salt, prefix);
    assert c.parseJson(c.printJson(j)) == Some(j);
    assert c.parseBase64(c.printBase64(salt)) == Some(salt);
    assert c.parseBase64(c.printBase64(prefix)) == Some(prefix);
  }

  /** A written container reads back as its plaintext exactly when that is not empty; its length is
    * fixed by the header and the plaintext length.
    */
  lemma EncryptThenDecrypt(c: Primitives, content: bytes, passphrase: string, salt: bytes, prefix: bytes)
    requires c.Lawful() && |salt| == SALT_SIZE && |prefix| == PREFIX_SIZE
    requires Encrypted(c, |content|, content, passphrase, salt, prefix).Ok?
    ensures var file := Encrypted(c, |content|, content, passphrase, salt, prefix).value;
            var raw := c.printJson(HeaderJson(c, |content|, salt, prefix));
            && |file| == 11 + 4 + |raw| + |content| + 20 * RecordCount(|content|)
            && Decrypted(c, file, passphrase) == if content != [] then Ok(content) else Err(Integrity)
  {
    var raw := c.printJson(HeaderJson(c, |content|, salt, prefix));
    var h := Header(|content|, salt, prefix);
    WrittenHeaderReads(c, |content|, passphrase, salt, prefix);
    ContainerLength(c, raw, h, passphrase, content);
    if content != [] {
      CanonicalIsAccepted(c, raw, passphrase, content);
    } else {
      OpenComplete(c, raw, Records(c, c.deriveKey(passphrase, salt), prefix, MAGIC + raw, content, 0), passphrase);
    }
  }

  /** The writer's record counter and the reader's size limit stop at the same plaintext size. */
  lemma WriterAndReaderAgreeOnTheLimit(
    c: Primitives, content: bytes, passphrase: string, salt: bytes, prefix: bytes)
    requires c.Lawful() && |salt| == SALT_SIZE && |prefix| == PREFIX_SIZE && |passphrase| >= MIN_PASSPHRASE
    requires |c.printJson(HeaderJson(c, |content|, salt, prefix))| <= MAX_HEADER
    ensures Encrypted(c, |content|, content, passphrase, salt, prefix).Ok? <==> |content| <= SIZE_LIMIT
    ensures OpenHeader(c, c.printJson(HeaderJson(c, |content|, salt, prefix)), passphrase).Ok? <==> 0 < |content| <= SIZE_LIMIT
    ensures |content| <= SIZE_LIMIT <==> RecordCount(|content|) <= MAX_RECORDS
  {
    WrittenHeaderReads(c, |content|, passphrase, salt, prefix);
  }

  /** No two records of one file are sealed under the same nonce. */
  lemma NoncesDistinct(prefix: bytes, i: nat, j: nat)
    requires i < MAX_RECORDS && j < MAX_RECORDS
    requires Nonce(prefix, i) == Nonce(prefix, j)
    ensures i == j
  {
    assert Nonce(prefix, i)[|prefix|..] == Word(i) && Nonce(prefix, j)[|prefix|..] == Word(j);
  }

  /** The laws can all hold at once: a tag of zeros and the empty key schedule satisfy the cipher part. */
  lemma CipherLawsSatisfiable() returns (
      encrypt: (bytes, bytes, bytes, bytes) -> bytes, decrypt: (bytes, bytes, bytes, bytes) -> Option<bytes>)
    ensures forall k, n, p, ad :: |encrypt(k, n, p, ad)| == |p| + TAG_SIZE
    ensures forall k, n, p, ad :: decrypt(k, n, encrypt(k, n, p, ad), ad) == Some(p)
    ensures forall k, n, s, ad :: decrypt(k, n, s, ad).Some? ==> s == encrypt(k, n, decrypt(k, n, s, ad).value, ad)
  {
    var tag: bytes := seq(TAG_SIZE, i => 0);
    encrypt := (k, n, p, ad) => p + tag;
    decrypt := (k, n, s, ad) =>
      if |s| >= TAG_SIZE && s[|s| - TAG_SIZE..] == tag then Some(s[..|s| - TAG_SIZE]) else None;
    forall k: bytes, n: bytes, p: bytes, ad: bytes ensures decrypt(k, n, encrypt(k, n, p, ad), ad) == Some(p) {
      assert (p + tag)[|p|..] == tag && (p + tag)[..|p|] == p;
    }
  }

  // ----- The writer and the reader -----

  class Reader {
    const data: bytes
    var position: nat

    ghost predicate Valid()
      reads this
    {
      position <= |data|
    }

    function Remaining(): bytes
      requires Valid()
      reads this
    {
      data[position..]
    }

    constructor (data: bytes)
      ensures Valid() && this.data == data && Remaining() == data
    {
      this.data, position := data, 0;
    }

    /** At most `n` bytes; fewer only at the end of the data. */
    method Read(n: nat) returns (chunk: bytes)
      requires Valid()
      modifies this
      ensures Valid()
      ensures chunk == old(Remaining())[..Min(n, |old(Remaining())|)]
      ensures Remaining() == old(Remaining())[|chunk|..]
    {
      var end := Min(position + n, |data|);
      chunk := data[position..end];
      position := end;
    }
  }

  /** A file opened for exclusive creation. */
  class Writer {
    var data: bytes

    constructor ()
      ensures data == []
    {
      data := [];
    }

    method Write(more: bytes)
      modifies this
      ensures data == old(data) + more
    {
      data := data + more;
    }
  }

  /** The directory files are written into. */
  class Disk {
    var files: map<string, bytes>
  }

  /** Writes the container of `source` to `destination`. A failure after the key is derived removes
    * whatever is at `destination`, including a file that was there before the call.
    */
  method EncryptArchive(
    c: Primitives, size: nat, source: Reader, disk: Disk, destination: string, passphrase: string,
    salt: bytes, prefix: bytes)
    returns (r: Outcome<Error>)
    requires c.Lawful() && source.Valid()
    modifies source, disk
    ensures var written := Encrypted(c, size, old(source.Remaining()), passphrase, salt, prefix);
            if written == Err(HeaderTooLarge) || written == Err(WeakPassphrase) then
              r == Fail(written.error) && disk.files == old(disk.files)
            else if destination in old(disk.files) then
              r == Fail(DestinationExists) && disk.files == old(disk.files) - {destination}
            else if written.Ok? then
              r == Pass && disk.files == old(disk.files)[destination := written.value]
            else
              r == Fail(written.error) && disk.files == old(disk.files)
  {
    var raw := c.printJson(HeaderJson(c, size, salt, prefix));
    if |raw| > MAX_HEADER {
      return Fail(HeaderTooLarge);
    }
    if |passphrase| < MIN_PASSPHRASE {
      return Fail(WeakPassphrase);
    }
    var key := c.deriveKey(passphrase, salt);
    if destination in disk.files {
      disk.files := disk.files - {destination};
      return Fail(DestinationExists);
    }
    disk.files := disk.files[destination := []];
    var encrypted := new Writer();
    r := WriteContainer(c, size, source, encrypted, raw, key, prefix);
    if r.Pass? {
      disk.files := disk.files[destination := encrypted.data];
    } else {
      disk.files := disk.files - {destination};
      assert disk.files == old(disk.files);
    }
  }

  method WriteContainer(
    c: Primitives, size: nat, source: Reader, encrypted: Writer, raw: bytes, key: bytes, prefix: bytes)
    returns (r: Outcome<Error>)
    requires c.Lawful() && source.Valid() && encrypted.data == [] && |raw| <= MAX_HEADER
    modifies source, encrypted
    ensures WriteVerdict(size, |old(source.Remaining())|) == r
    ensures r == Pass ==>
              encrypted.data == Preamble(raw) + Records(c, key, prefix, MAGIC + raw, old(source.Remaining()), 0)
  {
    encrypted.Write(MAGIC);
    encrypted.Write(Word(|raw|));
    encrypted.Write(raw);
    assert encrypted.data == Preamble(raw);
    r := WriteRecords(c, size, source, encrypted, key, prefix, MAGIC + raw);
  }

  /** The writer's verdict on `length` bytes read from a source that measured `size`. */
  function WriteVerdict(size: nat, length: nat): Outcome<Error> {
    if length > SIZE_LIMIT && size >= SIZE_LIMIT then Fail(TooLarge)
    else if length != size then Fail(SourceChanged)
    else Pass
  }

  method WriteRecords(
    c: Primitives, size: nat, source: Reader, encrypted: Writer, key: bytes, prefix: bytes, ad: bytes)
    returns (r: Outcome<Error>)
    requires c.Lawful() && source.Valid()
    modifies source, encrypted
    ensures WriteVerdict(size, |old(source.Remaining())|) == r
    ensures r == Pass ==>
              encrypted.data == old(encrypted.data) + Records(c, key, prefix, ad, old(source.Remaining()), 0)
  {
    ghost var goal := AheadAtFirst(c, key, prefix, ad, encrypted.data, source.Remaining());
    r := WriteTowards(c, size, source, encrypted, key, prefix, ad, goal);
  }

  method WriteTowards(
    c: Primitives, size: nat, source: Reader, encrypted: Writer, key: bytes, prefix: bytes, ad: bytes, ghost goal: bytes)
    returns (r: Outcome<Error>)
    requires c.Lawful() && source.Valid()
    requires Ahead(c, key, prefix, ad, goal, encrypted.data, source.Remaining(), 0)
    modifies source, encrypted
    ensures WriteVerdict(size, |old(source.Remaining())|) == r
    ensures r == Pass ==> |old(source.Remaining())| <= SIZE_LIMIT && encrypted.data == goal
  {
    ghost var content := source.Remaining();
    var total: nat, counter: nat := 0, 0;
    var chunk := source.Read(CHUNK_SIZE);
    ghost var left := content;
    while chunk != []
      invariant source.Valid() && Counted(|content|, |left|, total, counter, size)
      invariant Chunked(left, chunk, source.Remaining())
      invariant Ahead(c, key, prefix, ad, goal, encrypted.data, left, counter)
      decreases |left|
    {
      CountsOn(|content|, |left|, total, counter, size);
      if counter >= MAX_RECORDS {
        return Fail(TooLarge);
      }
      total := total + |chunk|;
      if total > size {
        return Fail(SourceChanged);
      }
      chunk, left := WriteThenRead(c, source, encrypted, key, prefix, ad, chunk, counter, left, goal);
      counter := counter + 1;
    }
    CountedAll(|content|, total, counter, size);
    AheadAtLast(c, key, prefix, ad, goal, encrypted.data, left, counter);
    if total != size {
      return Fail(SourceChanged);
    }
    return Pass;
  }

  /** Of `length` bytes all but `left` are written, `total` of them, in `counter` full records unless none is left. */
  ghost predicate Counted(length: nat, left: nat, total: nat, counter: nat, size: nat) {
    && counter <= MAX_RECORDS && total <= size && total <= SIZE_LIMIT && left + total == length
    && (left > 0 ==> total == SIZE_LIMIT - Capacity(counter))
  }

  lemma CountsOn(length: nat, left: nat, total: nat, counter: nat, size: nat)
    requires Counted(length, left, total, counter, size) && left > 0
    ensures var k := Min(CHUNK_SIZE, left);
            if counter == MAX_RECORDS then WriteVerdict(size, length) == Fail(TooLarge)
            else if total + k > size then WriteVerdict(size, length) == Fail(SourceChanged)
            else Counted(length, left - k, total + k, counter + 1, size)
  {
  }

  lemma CountedAll(length: nat, total: nat, counter: nat, size: nat)
    requires Counted(length, 0, total, counter, size)
    ensures WriteVerdict(size, length) == if total != size then Fail(SourceChanged) else Pass
  {
  }

  /** `chunk` is what was read of `left`, and `rest` is still to be read. */
  ghost predicate Chunked(left: bytes, chunk: bytes, rest: bytes) {
    chunk == left[..Min(CHUNK_SIZE, |left|)] && rest == left[|chunk|..]
  }

  method WriteThenRead(
    c: Primitives, source: Reader, encrypted: Writer, key: bytes, prefix: bytes, ad: bytes, chunk: bytes, counter: nat,
    ghost left: bytes, ghost goal: bytes)
    returns (next: bytes, ghost rest: bytes)
    requires c.Lawful() && source.Valid() && counter < MAX_RECORDS
    requires chunk != [] && Chunked(left, chunk, source.Remaining())
    modifies source, encrypted
    ensures source.Valid() && Chunked(rest, next, source.Remaining()) && |rest| == |left| - |chunk|
    ensures Ahead(c, key, prefix, ad, goal, old(encrypted.data), left, counter) ==>
              Ahead(c, key, prefix, ad, goal, encrypted.data, rest, counter + 1)
  {
    WriteRecord(c, encrypted, key, prefix, ad, chunk, counter, left, goal);
    rest := left[|chunk|..];
    next := source.Read(CHUNK_SIZE);
  }

  /** What is written, followed by the records of what is left, is what is to be written, if they can be numbered. */
  ghost predicate Ahead(
    c: Primitives, key: bytes, prefix: bytes, ad: bytes, goal: bytes, written: bytes, left: bytes, counter: nat)
    requires c.Lawful()
  {
    counter <= MAX_RECORDS && |left| <= Capacity(counter) ==>
      forall stream | stream == Records(c, key, prefix, ad, left, counter) :: Joins(goal, written, stream)
  }

  predicate Joins(goal: bytes, written: bytes, stream: bytes) {
    goal == written + stream
  }

  lemma AheadAtFirst(c: Primitives, key: bytes, prefix: bytes, ad: bytes, written: bytes, left: bytes)
    returns (goal: bytes)
    requires c.Lawful()
    ensures Ahead(c, key, prefix, ad, goal, written, left, 0)
    ensures |left| <= SIZE_LIMIT ==> goal == written + Records(c, key, prefix, ad, left, 0)
  {
    goal := if |left| <= SIZE_LIMIT then written + Records(c, key, prefix, ad, left, 0) else [];
  }

  lemma AheadAtLast(
    c: Primitives, key: bytes, prefix: bytes, ad: bytes, goal: bytes, written: bytes, left: bytes, counter: nat)
    requires c.Lawful() && left == [] && counter <= MAX_RECORDS && Ahead(c, key, prefix, ad, goal, written, left, counter)
    ensures goal == written
  {
    assert Joins(goal, written, Records(c, key, prefix, ad, left, counter));
  }

  lemma AheadOn(
    c: Primitives, key: bytes, prefix: bytes, ad: bytes, goal: bytes, written: bytes, left: bytes, counter: nat,
    chunk: bytes)
    requires c.Lawful() && counter < MAX_RECORDS
    requires chunk != [] && |chunk| == Min(CHUNK_SIZE, |left|) && chunk == left[..|chunk|]
    ensures Ahead(c, key, prefix, ad, goal, written, left, counter) ==>
              Ahead(c, key, prefix, ad, goal, written + Seal(c, key, prefix, ad, chunk, counter), left[|chunk|..], counter + 1)
  {
    if Ahead(c, key, prefix, ad, goal, written, left, counter) && |left| <= Capacity(counter) {
      assert Joins(goal, written, Records(c, key, prefix, ad, left, counter));
    }
  }

  /** Writes one record; `left` is what remains of the source, this chunk included. */
  method WriteRecord(
    c: Primitives, encrypted: Writer, key: bytes, prefix: bytes, ad: bytes, chunk: bytes, counter: nat,
    ghost left: bytes, ghost goal: bytes)
    requires c.Lawful() && counter < MAX_RECORDS
    requires chunk != [] && |chunk| == Min(CHUNK_SIZE, |left|) && chunk == left[..|chunk|]
    modifies encrypted
    ensures Ahead(c, key, prefix, ad, goal, old(encrypted.data), left, counter) ==>
              Ahead(c, key, prefix, ad, goal, encrypted.data, left[|chunk|..], counter + 1)
  {
    ghost var before := encrypted.data;
    var sealed := c.encrypt(key, Nonce(prefix, counter), chunk, ad + Word(counter));
    encrypted.Write(Word(|sealed|));
    encrypted.Write(sealed);
    AheadOn(c, key, prefix, ad, goal, before, left, counter, chunk);
    assert encrypted.data == before + Seal(c, key, prefix, ad, chunk, counter);
  }

  /** Reads the container `source` holds and writes its plaintext to `destination`. */
  method DecryptArchive(c: Primitives, source: Reader, disk: Disk, destination: string, passphrase: string)
    returns (r: Outcome<Error>)
    requires source.Valid()
    modifies source, disk
    ensures var opening := Open(c, old(source.Remaining()), passphrase);
            var plain := Decrypted(c, old(source.Remaining()), passphrase);
            if opening.Err? then
              r == Fail(opening.error) && disk.files == old(disk.files)
            else if destination in old(disk.files) then
              r == Fail(DestinationExists) && disk.files == old(disk.files) - {destination}
            else if plain.Ok? then
              r == Pass && disk.files == old(disk.files)[destination := plain.value]
            else
              r == Fail(Integrity) && disk.files == old(disk.files)
  {
    var opening := OpenReader(c, source, passphrase);
    if opening.Err? {
      return Fail(opening.error);
    }
    var Opening(header, raw, _) := opening.value;
    var key := c.deriveKey(passphrase, header.salt);
    if destination in disk.files {
      disk.files := disk.files - {destination};
      return Fail(DestinationExists);
    }
    disk.files := disk.files[destination := []];
    var plain := new Writer();
    var authentic := ReadRecords(c, source, plain, key, header.prefix, MAGIC + raw, header.size);
    if authentic {
      disk.files := disk.files[destination := plain.data];
      r := Pass;
    } else {
      disk.files := disk.files - {destination};
      assert disk.files == old(disk.files);
      r := Fail(Integrity);
    }
  }

  ghost predicate Continues(goal: Option<bytes>, written: bytes, rest: Option<bytes>) {
    goal == if rest.Some? then Some(written + rest.value) else None
  }

  method ReadRecords(
    c: Primitives, source: Reader, plain: Writer, key: bytes, prefix: bytes, ad: bytes, size: nat)
    returns (authentic: bool)
    requires source.Valid() && plain.data == [] && size <= SIZE_LIMIT
    modifies source, plain
    ensures Unseal(c, key, prefix, ad, old(source.Remaining()), size, 0) ==
            if authentic then Some(plain.data) else None
  {
    var remaining, counter := size, 0;
    ghost var goal := Unseal(c, key, prefix, ad, source.Remaining(), size, 0);
    StartsEmpty(goal);
    while remaining > 0
      invariant source.Valid() && 0 <= counter <= MAX_RECORDS
      invariant 0 <= remaining <= Capacity(counter)
      invariant Continues(goal, plain.data, Unseal(c, key, prefix, ad, source.Remaining(), remaining, counter))
    {
      UnsealStep(c, key, prefix, ad, source.Remaining(), remaining, counter, goal, plain.data);
      var chunk := ReadRecord(c, source, key, prefix, ad, Min(CHUNK_SIZE, remaining), counter);
      if chunk.None? {
        return false;
      }
      plain.Write(chunk.value);
      remaining := remaining - |chunk.value|;
      counter := counter + 1;
    }
    UnsealEnd(c, key, prefix, ad, source.Remaining(), counter, goal, plain.data);
    var trailing := source.Read(1);
    authentic := trailing == [];
  }

  lemma StartsEmpty(goal: Option<bytes>)
    ensures Continues(goal, [], goal)
  {
    assert goal.Some? ==> [] + goal.value == goal.value;
  }

  lemma UnsealEnd(
    c: Primitives, key: bytes, prefix: bytes, ad: bytes, stream: bytes, counter: nat,
    goal: Option<bytes>, written: bytes)
    requires counter <= MAX_RECORDS && Continues(goal, written, Unseal(c, key, prefix, ad, stream, 0, counter))
    ensures goal == if stream == [] then Some(written) else None
  {
    assert written + [] == written;
  }

  lemma UnsealStep(
    c: Primitives, key: bytes, prefix: bytes, ad: bytes, stream: bytes, remaining: nat, counter: nat,
    goal: Option<bytes>, written: bytes)
    requires counter < MAX_RECORDS && 0 < remaining <= Capacity(counter)
    requires Continues(goal, written, Unseal(c, key, prefix, ad, stream, remaining, counter))
    ensures var k := Min(CHUNK_SIZE, remaining);
            var chunk := UnsealOne(c, key, prefix, ad, stream, k, counter);
            if chunk.None? then goal.None? else
              && remaining - k <= Capacity(counter + 1)
              && Continues(goal, written + chunk.value,
                   Unseal(c, key, prefix, ad, stream[4 + k + TAG_SIZE..], remaining - k, counter + 1))
  {
    var k := Min(CHUNK_SIZE, remaining);
    var chunk := UnsealOne(c, key, prefix, ad, stream, k, counter);
    if chunk.Some? {
      var rest := Unseal(c, key, prefix, ad, stream[4 + k + TAG_SIZE..], remaining - k, counter + 1);
      assert rest.Some? ==> written + (chunk.value + rest.value) == written + chunk.value + rest.value;
    }
  }

  method ReadRecord(
    c: Primitives, source: Reader, key: bytes, prefix: bytes, ad: bytes, expected: nat, counter: nat)
    returns (chunk: Option<bytes>)
    requires source.Valid() && counter < MAX_RECORDS
    modifies source
    ensures source.Valid()
    ensures chunk == UnsealOne(c, key, prefix, ad, old(source.Remaining()), expected, counter)
    ensures chunk.Some? ==> source.Remaining() == old(source.Remaining())[4 + expected + TAG_SIZE..]
  {
    ghost var stream := source.Remaining();
    var rawLength := source.Read(4);
    if |rawLength| != 4 || Value(rawLength) != expected + TAG_SIZE {
      return None;
    }
    var sealed := source.Read(expected + TAG_SIZE);
    if |sealed| != expected + TAG_SIZE {
      return None;
    }
    assert sealed == stream[4..4 + |sealed|] && source.Remaining() == stream[4 + |sealed|..];
    chunk := c.decrypt(key, Nonce(prefix, counter), sealed, ad + Word(counter));
    if chunk.Some? && |chunk.value| != expected {
      return None;
    }
  }

  method ReadPart(source: Reader, n: nat) returns (part: bytes)
    requires source.Valid()
    modifies source
    ensures source.Valid() && old(source.Remaining()) == part + source.Remaining()
    ensures |part| == Min(n, |old(source.Remaining())|)
  {
    ghost var before := source.Remaining();
    part := source.Read(n);
    TwoParts(before, |part|);
  }

  lemma StopsAtMagic(c: Primitives, data: bytes, passphrase: string, magic: bytes, rest: bytes)
    requires data == magic + rest && |magic| == Min(|MAGIC|, |data|)
    ensures magic != MAGIC ==> Open(c, data, passphrase) == Err(Integrity)
  {
    assert |data| >= |MAGIC| ==> data[..|MAGIC|] == magic;
  }

  lemma StopsAtLength(c: Primitives, data: bytes, passphrase: string, rawLength: bytes, rest: bytes)
    requires data == MAGIC + (rawLength + rest) && |rawLength| == Min(4, |rawLength + rest|)
    ensures |rawLength| != 4 || !(1 <= Value(rawLength) <= MAX_HEADER) || |rest| < Value(rawLength) ==>
              Open(c, data, passphrase) == Err(Integrity)
  {
    assert data[|MAGIC|..] == rawLength + rest;
    assert |rawLength| == 4 ==> (rawLength + rest)[..4] == rawLength;
  }

  /** What a source opens to whose parts have been read one after the other. */
  lemma OpenParts(c: Primitives, data: bytes, passphrase: string, rawLength: bytes, raw: bytes, payload: bytes)
    requires data == MAGIC + rawLength + raw + payload
    requires |rawLength| == 4 && Value(rawLength) == |raw| && 1 <= |raw| <= MAX_HEADER
    ensures Open(c, data, passphrase) ==
            match OpenHeader(c, raw, passphrase)
            case Ok(header) => Ok(Opening(header, raw, payload))
            case Err(e) => Err(e)
  {
    WordOfValue(rawLength);
    OpenComplete(c, raw, payload, passphrase);
  }

  /** Reads and checks everything before the record stream. */
  method OpenReader(c: Primitives, source: Reader, passphrase: string) returns (r: Result<Opening, Error>)
    requires source.Valid()
    modifies source
    ensures source.Valid()
    ensures r == Open(c, old(source.Remaining()), passphrase)
    ensures r.Ok? ==> source.Remaining() == r.value.payload
  {
    ghost var data := source.Remaining();
    var magic := ReadPart(source, |MAGIC|);
    ghost var afterMagic := source.Remaining();
    StopsAtMagic(c, data, passphrase, magic, afterMagic);
    if magic != MAGIC {
      return Err(Integrity);
    }
    var rawLength := ReadPart(source, 4);
    ghost var afterLength := source.Remaining();
    StopsAtLength(c, data, passphrase, rawLength, afterLength);
    if |rawLength| != 4 {
      return Err(Integrity);
    }
    var length := Value(rawLength);
    if !(1 <= length <= MAX_HEADER) {
      return Err(Integrity);
    }
    var raw := ReadPart(source, length);
    if |raw| != length {
      return Err(Integrity);
    }
    Assembled(data, MAGIC, afterMagic, rawLength, raw, source.Remaining());
    OpenParts(c, data, passphrase, rawLength, raw, source.Remaining());
    match OpenHeader(c, raw, passphrase) {
      case Ok(header) =>
        return Ok(Opening(header, raw, source.Remaining()));
      case Err(e) =>
        return Err(e);
    }
  }
}
