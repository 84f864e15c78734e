/**
 The encrypted bundle stream of internal/bootstrapstate/crypto.go: a chunking writer, a record reader with
 indexed nonces and a terminal record. The cipher is a pair of functions; what is assumed of them is stated
 where it is used.
 */
module EncryptedStream {
  import opened Ordering

  type byte = n: nat | n < 256
  type bytes = seq<byte>

  const CHUNK: nat := 1048576
  const OVERHEAD: nat := 16
  const SALT_SIZE: nat := 16
  const NONCE_PREFIX: nat := 16
  const HEADER_SIZE: nat := 52

  /** An index the 64-bit counter has not wrapped past. */
  const INDEX_LIMIT: nat := 0x1_0000_0000_0000_0000

  // ----- Big-endian numbers -----

  /** The low `width` bytes of n, most significant first. */
  function BigEndian(n: nat, width: nat): (r: bytes)
    ensures |r| == width
  {
    if width == 0 then [] else BigEndian(n / 256, width - 1) + [n % 256]
  }

  function FromBigEndian(s: bytes): nat
  {
    if s == [] then 0 else FromBigEndian(s[..|s| - 1]) * 256 + s[|s| - 1]
  }

  function Power256(width: nat): nat
  {
    if width == 0 then 1 else 256 * Power256(width - 1)
  }

  lemma {:induction false} BigEndianInverse(n: nat, width: nat)
    requires n < Power256(width)
    ensures FromBigEndian(BigEndian(n, width)) == n
  {
    if width > 0 {
      BigEndianInverse(n / 256, width - 1);
      assert BigEndian(n, width)[..width - 1] == BigEndian(n / 256, width - 1);
    }
  }

  lemma {:induction false} FromBigEndianInverse(s: bytes)
    ensures BigEndian(FromBigEndian(s), |s|) == s && FromBigEndian(s) < Power256(|s|)
  {
    if s != [] {
      FromBigEndianInverse(s[..|s| - 1]);
    }
  }

  lemma Limits()
    ensures Power256(8) == INDEX_LIMIT && Power256(4) == 0x1_0000_0000
  {
    assert Power256(4) == 256 * 256 * 256 * 256;
    assert Power256(8) == 256 * 256 * 256 * 256 * Power256(4);
  }

  // ----- Records -----

  /** XChaCha20-Poly1305 under one key: nonce, text, additional data. */
  datatype Aead = Aead(seal: (bytes, bytes, bytes) -> bytes, open: (bytes, bytes, bytes) -> Option<bytes>)

  /** Sealing adds a tag of fixed size. */
  ghost predicate Tagged(aead: Aead)
  {
    forall nonce, text, aad :: |aead.seal(nonce, text, aad)| == |text| + OVERHEAD
  }

  function Nonce(prefix: bytes, index: nat): bytes { prefix + BigEndian(index, 8) }

  /** `recordAAD`. */
  function Aad(flag: byte, index: nat): bytes { [flag] + BigEndian(index, 8) }

  /** No two indices below the limit share a nonce, and the additional data fixes flag and index. */
  lemma NonceInjective(p: bytes, q: bytes, f: byte, g: byte, i: nat, j: nat)
    requires |p| == |q| && i < INDEX_LIMIT && j < INDEX_LIMIT
    ensures Nonce(p, i) == Nonce(q, j) ==> p == q && i == j
    ensures Aad(f, i) == Aad(g, j) ==> f == g && i == j
  {
    Limits();
    BigEndianInverse(i, 8);
    BigEndianInverse(j, 8);
    assert Nonce(p, i)[..|p|] == p && Nonce(q, j)[..|p|] == q;
    assert Nonce(p, i)[|p|..] == BigEndian(i, 8) && Nonce(q, j)[|p|..] == BigEndian(j, 8);
    assert Aad(f, i)[0] == f && Aad(g, j)[0] == g;
    assert Aad(f, i)[1..] == BigEndian(i, 8) && Aad(g, j)[1..] == BigEndian(j, 8);
  }

  function RecordHeader(flag: byte, ciphertext: bytes): bytes { [flag] + BigEndian(|ciphertext|, 4) }

  function Record(aead: Aead, prefix: bytes, flag: byte, text: bytes, index: nat): bytes
  {
    var ciphertext := aead.seal(Nonce(prefix, index), text, Aad(flag, index));
    RecordHeader(flag, ciphertext) + ciphertext
  }

  /** The data cut into full chunks and one shorter rest. */
  function Split(data: bytes): seq<bytes>
    decreases |data|
  {
    if data == [] then []
    else if |data| <= CHUNK then [data]
    else [data[..CHUNK]] + Split(data[CHUNK..])
  }

  function Flatten(chunks: seq<bytes>): bytes
  {
    if chunks == [] then [] else chunks[0] + Flatten(chunks[1..])
  }

  function RecordsOf(aead: Aead, prefix: bytes, chunks: seq<bytes>, start: nat): bytes
  {
    if chunks == [] then []
    else Record(aead, prefix, 0, chunks[0], start) + RecordsOf(aead, prefix, chunks[1..], start + 1)
  }

  /** Everything after the header: one record for each chunk, then the empty terminal record. */
  function Stream(aead: Aead, prefix: bytes, chunks: seq<bytes>, start: nat): bytes
  {
    RecordsOf(aead, prefix, chunks, start) + Record(aead, prefix, 1, [], start + |chunks|)
  }

  lemma {:induction false} RecordsAppend(aead: Aead, prefix: bytes, chunks: seq<bytes>, last: bytes, start: nat)
    ensures RecordsOf(aead, prefix, chunks + [last], start)
            == RecordsOf(aead, prefix, chunks, start) + Record(aead, prefix, 0, last, start + |chunks|)
  {
    if chunks == [] {
      assert chunks + [last] == [last];
      assert Record(aead, prefix, 0, last, start) + [] == Record(aead, prefix, 0, last, start);
    } else {
      assert (chunks + [last])[1..] == chunks[1..] + [last];
      RecordsAppend(aead, prefix, chunks[1..], last, start + 1);
    }
  }

  lemma {:induction false} FlattenAppend(chunks: seq<bytes>, last: bytes)
    ensures Flatten(chunks + [last]) == Flatten(chunks) + last
  {
    if chunks == [] {
      assert chunks + [last] == [last];
    } else {
      assert (chunks + [last])[1..] == chunks[1..] + [last];
      FlattenAppend(chunks[1..], last);
    }
  }

  predicate FullChunks(chunks: seq<bytes>)
  {
    forall i | 0 <= i < |chunks| :: |chunks[i]| == CHUNK
  }

  function WithRest(chunks: seq<bytes>, rest: bytes): seq<bytes>
  {
    if rest == [] then chunks else chunks + [rest]
  }

  /** Full chunks with a shorter rest are the canonical split of their concatenation. */
  lemma {:induction false} SplitCanonical(chunks: seq<bytes>, rest: bytes)
    requires FullChunks(chunks) && |rest| < CHUNK
    ensures Split(Flatten(chunks) + rest) == WithRest(chunks, rest)
  {
    if chunks == [] {
      assert Flatten(chunks) + rest == rest;
    } else {
      var data, tail := Flatten(chunks) + rest, Flatten(chunks[1..]) + rest;
      SplitCanonical(chunks[1..], rest);
      assert data == chunks[0] + tail && data[..CHUNK] == chunks[0] && data[CHUNK..] == tail;
      assert chunks == [chunks[0]] + chunks[1..];
      if |data| <= CHUNK {
        assert tail == [] && WithRest(chunks[1..], rest) == [];
      } else {
        assert WithRest(chunks, rest) == [chunks[0]] + WithRest(chunks[1..], rest);
      }
    }
  }

  lemma {:induction false} FlattenSplit(data: bytes)
    ensures Flatten(Split(data)) == data
    decreases |data|
  {
    if |data| > CHUNK {
      FlattenSplit(data[CHUNK..]);
      assert Split(data)[1..] == Split(data[CHUNK..]);
      assert data == data[..CHUNK] + data[CHUNK..];
    }
  }

  // ----- The writer -----

  /** Magic, salt, nonce with a zero index, chunk size. */
  function HeaderBytes(magic: bytes, salt: bytes, prefix: bytes): bytes
  {
    magic + salt + prefix + BigEndian(0, 8) + BigEndian(CHUNK, 4)
  }

  /** One call of the cipher's seal. */
  datatype Sealed = Sealed(index: nat, flag: byte, text: bytes)

  /** One index never seals two different texts. */
  ghost predicate EachIndexOnce(log: seq<Sealed>)
  {
    forall i, j | 0 <= i < |log| && 0 <= j < |log| && log[i].index == log[j].index :: log[i] == log[j]
  }

  /** Indices below `index` are used up; the present one was sealed, if at all, with this flag and text. */
  ghost predicate LogSound(log: seq<Sealed>, index: nat, flag: byte, text: bytes)
  {
    && EachIndexOnce(log)
    && forall i | 0 <= i < |log| :: log[i].index < index || log[i] == Sealed(index, flag, text)
  }

  ghost predicate LogBelow(log: seq<Sealed>, index: nat)
  {
    EachIndexOnce(log) && forall i | 0 <= i < |log| :: log[i].index < index
  }

  lemma LogExtended(log: seq<Sealed>, index: nat, flag: byte, text: bytes)
    requires LogSound(log, index, flag, text)
    ensures LogSound(log + [Sealed(index, flag, text)], index, flag, text)
    ensures LogBelow(log + [Sealed(index, flag, text)], index + 1)
  {
  }

  /** The log of an undisturbed run: indices 0, 1, 2, ... in order. */
  ghost predicate InOrder(log: seq<Sealed>)
  {
    forall i | 0 <= i < |log| :: log[i].index == i
  }

  /** `encryptedWriter`. Unless it is reliable, the destination may fail at any write, having taken part of it. */
  class Writer {
    const reliable: bool
    const aead: Aead
    const prefix: bytes
    const header: bytes
    var output: bytes
    var buffer: bytes
    var index: nat
    var closed: bool

    /** The chunks written as records so far. */
    ghost var chunks: seq<bytes>
    ghost var sealed: seq<Sealed>
    /** The destination has failed before. */
    ghost var broken: bool

    /** What the destination holds if it has never failed. */
    ghost predicate Undisturbed()
      reads this
    {
      && output == header + RecordsOf(aead, prefix, chunks, 0) && FullChunks(chunks)
      && |sealed| == |chunks| && InOrder(sealed)
    }

    /** What the destination holds after closing, if it has never failed. */
    ghost predicate Finished()
      reads this
    {
      && output == header + Stream(aead, prefix, Split(Data()), 0)
      && |sealed| == |Split(Data())| + 1 && InOrder(sealed)
    }

    /** Between two chunks nothing was sealed at the present index; after a failure the full chunk may have been. */
    ghost predicate Open()
      reads this
    {
      && index == |chunks| && LogSound(sealed, index, 0, buffer) && (|buffer| < CHUNK ==> LogBelow(sealed, index))
      && (!broken ==> |buffer| < CHUNK && Undisturbed())
    }

    ghost predicate Valid()
      reads this
    {
      && |buffer| <= CHUNK && EachIndexOnce(sealed) && (reliable ==> !broken)
      && if closed then !broken ==> Finished() else Open()
    }

    /** Everything the writer has accepted. */
    ghost function Data(): bytes
      reads this
    {
      Flatten(chunks) + buffer
    }

    constructor (aead: Aead, magic: bytes, salt: bytes, prefix: bytes, reliable: bool)
      ensures Valid() && !closed && !broken && Data() == [] && this.aead == aead && this.prefix == prefix
      ensures header == HeaderBytes(magic, salt, prefix) && this.reliable == reliable
    {
      this.aead, this.prefix, this.reliable := aead, prefix, reliable;
      header := HeaderBytes(magic, salt, prefix);
      output := HeaderBytes(magic, salt, prefix);
      buffer, index, closed := [], 0, false;
      chunks, sealed, broken := [], [], false;
    }

    /** One write to the destination. */
    method Emit(data: bytes) returns (ok: bool)
      modifies this`output, this`broken
      ensures ok ==> output == old(output) + data && broken == old(broken)
      ensures !ok ==> broken && !reliable
    {
      var fails: bool, taken: nat := *, *;
      if fails && !reliable {
        output := output + data[..if taken < |data| then taken else |data|];
        broken := true;
        return false;
      }
      output := output + data;
      ok := true;
    }

    /** `writeRecord`. */
    method WriteRecord(flag: byte, text: bytes) returns (ok: bool)
      modifies this`output, this`broken, this`index, this`sealed
      ensures sealed == old(sealed) + [Sealed(old(index), flag, text)]
      ensures index == old(index) + if ok then 1 else 0
      ensures if ok then broken == old(broken) else broken && !reliable
      ensures !broken ==> output == old(output) + Record(aead, prefix, flag, text, old(index))
    {
      var ciphertext := aead.seal(Nonce(prefix, index), text, Aad(flag, index));
      sealed := sealed + [Sealed(index, flag, text)];
      ghost var start := output;
      ok := Emit(RecordHeader(flag, ciphertext));
      if !ok { return; }
      ok := Emit(ciphertext);
      if !ok { return; }
      Assoc(start, RecordHeader(flag, ciphertext), ciphertext);
      index := index + 1;
    }

    /** Write the full buffer as a record; after a failure it stays full, to be sealed again as it is. */
    method Flush() returns (ok: bool)
      requires |buffer| == CHUNK && !closed && index == |chunks| && LogSound(sealed, index, 0, buffer)
      requires (!broken ==> Undisturbed()) && (reliable ==> !broken)
      modifies this
      ensures Valid() && !closed && Data() == old(Data())
      ensures if ok then broken == old(broken) && buffer == [] else broken && !reliable
    {
      LogExtended(sealed, index, 0, buffer);
      ok := WriteRecord(0, buffer);
      if ok {
        FlattenAppend(chunks, buffer);
        RecordsAppend(aead, prefix, chunks, buffer, 0);
        Assoc(header, RecordsOf(aead, prefix, chunks, 0), Record(aead, prefix, 0, buffer, |chunks|));
        chunks := chunks + [buffer];
        buffer := [];
        assert Flatten(chunks) + [] == Flatten(chunks);
      }
    }

    /** Move as much as fits into the buffer and write the buffer out when it is full. */
    method Fill(rest: bytes) returns (amount: nat, ok: bool)
      requires Valid() && !closed && rest != []
      modifies this
      ensures Valid() && !closed
      ensures amount <= |rest| && Data() == old(Data()) + rest[..amount]
      ensures if ok then broken == old(broken) && |buffer| < CHUNK else broken && !reliable
      ensures amount > 0 || |old(buffer)| == CHUNK
    {
      var space := CHUNK - |buffer|;
      amount := if |rest| > space then space else |rest|;
      Assoc(Flatten(chunks), buffer, rest[..amount]);
      if amount == 0 { assert buffer + rest[..amount] == buffer; }
      buffer := buffer + rest[..amount];
      ok := true;
      if |buffer| == CHUNK { ok := Flush(); }
    }

    /** `Write`: fill the buffer chunk by chunk. What it accepted is appended, whatever the split into calls. */
    method Write(data: bytes) returns (written: nat, ok: bool)
      requires Valid()
      modifies this
      ensures Valid() && closed == old(closed)
      ensures written <= |data| && Data() == old(Data()) + data[..written]
      ensures ok ==> written == |data| && broken == old(broken)
      ensures !ok ==> old(closed) || (broken && !reliable)
      ensures old(closed) ==> !ok && unchanged(this)
    {
      written := 0;
      if closed {
        assert Data() + data[..0] == Data();
        return 0, false;
      }
      var rest := data;
      while rest != []
        invariant Valid() && !closed && broken == old(broken)
        invariant written <= |data| && rest == data[written..]
        invariant Data() == old(Data()) + data[..written]
        decreases |rest|, |buffer|
      {
        var amount;
        ghost var done := data[..written];
        amount, ok := Fill(rest);
        Assoc(old(Data()), done, rest[..amount]);
        assert done + rest[..amount] == data[..written + amount];
        rest, written := rest[amount..], written + amount;
        if !ok { return; }
      }
      ok := true;
    }

    /** `Close`: the rest of the buffer, then the terminal record. Later calls do nothing. */
    method Close() returns (ok: bool)
      requires Valid()
      modifies this
      ensures Valid() && closed && Data() == old(Data())
      ensures old(closed) ==> ok && unchanged(this)
      ensures if ok then broken == old(broken) else broken && !reliable
    {
      if closed { return true; }
      closed := true;
      if !broken { SplitCanonical(chunks, buffer); }
      ok := WriteEnd();
    }

    /** The last records, of the unfinished chunk if there is one and of the end. */
    method WriteEnd() returns (ok: bool)
      requires Open() && (reliable ==> !broken)
      modifies this`output, this`broken, this`index, this`sealed
      ensures EachIndexOnce(sealed)
      ensures if ok then broken == old(broken) else broken && !reliable
      ensures !broken ==>
        && output == header + Stream(aead, prefix, WithRest(chunks, buffer), 0)
        && |sealed| == |WithRest(chunks, buffer)| + 1 && InOrder(sealed)
    {
      if buffer != [] {
        ok := WriteLast();
        if !ok { return; }
      }
      ghost var all := WithRest(chunks, buffer);
      LogExtended(sealed, index, 1, []);
      Assoc(header, RecordsOf(aead, prefix, all, 0), Record(aead, prefix, 1, [], |all|));
      ok := WriteRecord(1, []);
    }

    /** The record of the unfinished chunk. */
    method WriteLast() returns (ok: bool)
      requires buffer != [] && index == |chunks| && LogSound(sealed, index, 0, buffer)
      requires !broken ==> Undisturbed()
      modifies this`output, this`broken, this`index, this`sealed
      ensures EachIndexOnce(sealed)
      ensures if ok then broken == old(broken) else broken && !reliable
      ensures ok ==> index == |chunks| + 1 && LogBelow(sealed, index)
      ensures ok && !broken ==>
        && output == header + RecordsOf(aead, prefix, chunks + [buffer], 0)
        && |sealed| == |chunks| + 1 && InOrder(sealed)
    {
      LogExtended(sealed, index, 0, buffer);
      ok := WriteRecord(0, buffer);
      RecordsAppend(aead, prefix, chunks, buffer, 0);
      Assoc(header, RecordsOf(aead, prefix, chunks, 0), Record(aead, prefix, 0, buffer, |chunks|));
    }
  }

  // ----- The reader -----

  /** The text the writer sealed at an index, and the flag it sealed it under. */
  function TextAt(chunks: seq<bytes>, k: nat): bytes { if k < |chunks| then chunks[k] else [] }

  function FlagAt(chunks: seq<bytes>, k: nat): byte { if k < |chunks| then 0 else 1 }

  /** Unforgeability: under this key nothing opens except the ciphertexts the writer made, with their nonce and data. */
  ghost predicate Ideal(aead: Aead, prefix: bytes, chunks: seq<bytes>)
  {
    forall nonce, ciphertext, aad | aead.open(nonce, ciphertext, aad).Some? ::
      exists k: nat :: k <= |chunks| && OpensAt(aead, nonce, ciphertext, aad, prefix, chunks, k)
  }

  predicate OpensAt(aead: Aead, nonce: bytes, ciphertext: bytes, aad: bytes, prefix: bytes, chunks: seq<bytes>, k: nat)
  {
    && nonce == Nonce(prefix, k) && aad == Aad(FlagAt(chunks, k), k)
    && ciphertext == aead.seal(nonce, TextAt(chunks, k), aad)
    && aead.open(nonce, ciphertext, aad) == Some(TextAt(chunks, k))
  }

  /** What the writer sealed at an index opens again. */
  predicate Reopens(aead: Aead, prefix: bytes, chunks: seq<bytes>, k: nat)
  {
    var nonce, aad := Nonce(prefix, k), Aad(FlagAt(chunks, k), k);
    aead.open(nonce, aead.seal(nonce, TextAt(chunks, k), aad), aad) == Some(TextAt(chunks, k))
  }

  ghost predicate Correct(aead: Aead, prefix: bytes, chunks: seq<bytes>)
  {
    Tagged(aead) && forall k: nat :: k <= |chunks| ==> Reopens(aead, prefix, chunks, k)
  }

  predicate IsSealed(seal: (bytes, bytes, bytes) -> bytes, prefix: bytes, chunks: seq<bytes>, k: nat,
                     nonce: bytes, ciphertext: bytes, aad: bytes)
  {
    nonce == Nonce(prefix, k) && aad == Aad(FlagAt(chunks, k), k) && ciphertext == seal(nonce, TextAt(chunks, k), aad)
  }

  /** Opening by looking the triple up among what was sealed at the indices below n. */
  function LookUp(seal: (bytes, bytes, bytes) -> bytes, prefix: bytes, chunks: seq<bytes>, n: nat,
                  nonce: bytes, ciphertext: bytes, aad: bytes): Option<bytes>
  {
    if n == 0 then None
    else if IsSealed(seal, prefix, chunks, n - 1, nonce, ciphertext, aad) then Some(TextAt(chunks, n - 1))
    else LookUp(seal, prefix, chunks, n - 1, nonce, ciphertext, aad)
  }

  lemma {:induction false} LookUpIdeal(seal: (bytes, bytes, bytes) -> bytes, prefix: bytes, chunks: seq<bytes>, n: nat,
                                       nonce: bytes, ciphertext: bytes, aad: bytes)
    requires LookUp(seal, prefix, chunks, n, nonce, ciphertext, aad).Some?
    ensures exists k: nat :: k < n && IsSealed(seal, prefix, chunks, k, nonce, ciphertext, aad)
                             && LookUp(seal, prefix, chunks, n, nonce, ciphertext, aad) == Some(TextAt(chunks, k))
  {
    if !IsSealed(seal, prefix, chunks, n - 1, nonce, ciphertext, aad) {
      LookUpIdeal(seal, prefix, chunks, n - 1, nonce, ciphertext, aad);
    }
  }

  lemma {:induction false} LookUpFinds(seal: (bytes, bytes, bytes) -> bytes, prefix: bytes, chunks: seq<bytes>, n: nat,
                                       k: nat)
    requires k < n <= INDEX_LIMIT
    ensures var nonce, aad := Nonce(prefix, k), Aad(FlagAt(chunks, k), k);
            LookUp(seal, prefix, chunks, n, nonce, seal(nonce, TextAt(chunks, k), aad), aad) == Some(TextAt(chunks, k))
  {
    if k < n - 1 {
      NonceInjective(prefix, prefix, 0, 0, k, n - 1);
      LookUpFinds(seal, prefix, chunks, n - 1, k);
    }
  }

  /** The two assumptions about the cipher are compatible: every way of sealing has a way of opening with both. */
  lemma CipherExists(seal: (bytes, bytes, bytes) -> bytes, prefix: bytes, chunks: seq<bytes>) returns (aead: Aead)
    requires |chunks| < INDEX_LIMIT && forall n, t, a :: |seal(n, t, a)| == |t| + OVERHEAD
    ensures aead.seal == seal && Ideal(aead, prefix, chunks) && Correct(aead, prefix, chunks)
  {
    aead := Aead(seal, (n, c, a) => LookUp(seal, prefix, chunks, |chunks| + 1, n, c, a));
    forall n, c, a | aead.open(n, c, a).Some?
      ensures exists k: nat :: k <= |chunks| && OpensAt(aead, n, c, a, prefix, chunks, k)
    {
      LookUpIdeal(seal, prefix, chunks, |chunks| + 1, n, c, a);
      var k: nat :| k < |chunks| + 1 && IsSealed(seal, prefix, chunks, k, n, c, a)
                    && aead.open(n, c, a) == Some(TextAt(chunks, k));
      assert OpensAt(aead, n, c, a, prefix, chunks, k);
    }
    forall k: nat | k <= |chunks| ensures Reopens(aead, prefix, chunks, k) {
      LookUpFinds(seal, prefix, chunks, |chunks| + 1, k);
    }
  }

  datatype Header = Header(salt: bytes, prefix: bytes, chunk: nat, rest: bytes)

  /** The header checks of `newEncryptedReaderWithKeySource`. The last eight nonce bytes are overwritten later. */
  function ParseHeader(source: bytes, magic: bytes): Option<Header>
    requires |magic| == 8
  {
    if |source| < HEADER_SIZE || source[..8] != magic then None
    else
      var chunk := FromBigEndian(source[48..52]);
      if chunk == 0 || chunk > 16 * CHUNK then None
      else Some(Header(source[8..24], source[24..40], chunk, source[52..]))
  }

  /** The header's fields, by position. */
  predicate Laid(source: bytes, magic: bytes, h: Header)
    requires |source| >= HEADER_SIZE
  {
    && source[..8] == magic && source[8..24] == h.salt && source[24..40] == h.prefix && source[52..] == h.rest
    && h.chunk == (source[48] as nat) * 0x100_0000 + (source[49] as nat) * 0x1_0000
                  + (source[50] as nat) * 0x100 + source[51]
  }

  /** A header is accepted exactly if it is there, starts with the magic, and names a chunk of 1 byte to 16 MiB. */
  lemma HeaderExact(source: bytes, magic: bytes, h: Header)
    requires |magic| == 8
    ensures ParseHeader(source, magic) == Some(h) <==>
            |source| >= 52 && Laid(source, magic, h) && 1 <= h.chunk <= 0x100_0000
  {
    if |source| >= 52 { FourBytes(source[48..52]); }
  }

  lemma FourBytes(s: bytes)
    requires |s| == 4
    ensures FromBigEndian(s)
            == (s[0] as nat) * 0x100_0000 + (s[1] as nat) * 0x1_0000 + (s[2] as nat) * 0x100 + s[3]
  {
    assert s[..3][..2] == s[..2] && s[..2][..1] == s[..1] && s[..1][..0] == [];
    assert FromBigEndian(s[..1]) == s[0];
    assert FromBigEndian(s[..2]) == (s[0] as nat) * 256 + s[1];
    assert FromBigEndian(s[..3]) == FromBigEndian(s[..2]) * 256 + s[2];
  }

  datatype ReadResult = Bytes(data: bytes) | EndOfFile | Invalid

  /** `encryptedReader`, over a source that may fail at any read unless it is reliable. */
  class Reader {
    const aead: Aead
    const prefix: bytes
    const chunk: nat
    const reliable: bool
    var source: bytes
    var index: nat
    var buffer: bytes
    var done: bool

    /** What the writer sealed under this key, and with which nonce prefix. */
    ghost const sealedPrefix: bytes
    ghost const chunks: seq<bytes>
    /** What the source held at first, and that no error has been reported since. */
    ghost const fed: bytes
    ghost var clean: bool

    /** Everything handed to the caller so far. */
    ghost var delivered: bytes

    /**
     At every moment, after any number of errors, delivered and buffered bytes are a prefix of what was sealed,
     cut at a chunk; `done` is set only once all of it has been opened.
     */
    ghost predicate Valid()
      reads this
    {
      && |prefix| == NONCE_PREFIX && |sealedPrefix| == NONCE_PREFIX
      && |chunks| + 1 < INDEX_LIMIT && Ideal(aead, sealedPrefix, chunks)
      && index <= |chunks| + 1 && (done ==> index == |chunks| + 1 && source == [])
      && delivered + buffer == Flatten(chunks[..Opened(chunks, index)])
      && (clean ==> fed == Consumed(aead, sealedPrefix, chunks, index) + source)
      && EndsWith(fed, source) && (done ==> EndsWith(fed, Terminal(aead, sealedPrefix, chunks)))
    }

    /** The rest of the source is exactly what the writer produced from this index on. */
    ghost predicate Honest()
      reads this
    {
      && reliable && Correct(aead, sealedPrefix, chunks) && prefix == sealedPrefix && chunk <= 16 * CHUNK
      && (forall i | 0 <= i < |chunks| :: 0 < |chunks[i]| <= chunk)
      && (!done ==> index <= |chunks| && source == Stream(aead, prefix, chunks[index..], index))
    }

    constructor (aead: Aead, header: Header, reliable: bool, ghost sealedPrefix: bytes, ghost chunks: seq<bytes>)
      requires |header.prefix| == NONCE_PREFIX && |sealedPrefix| == NONCE_PREFIX
      requires |chunks| + 1 < INDEX_LIMIT && Ideal(aead, sealedPrefix, chunks)
      ensures Valid() && delivered == [] && this.chunks == chunks && index == 0 && !done && buffer == []
      ensures this.aead == aead && this.prefix == header.prefix && this.chunk == header.chunk
      ensures this.sealedPrefix == sealedPrefix && source == header.rest && this.reliable == reliable
      ensures clean && fed == header.rest
    {
      this.aead, prefix, chunk, source := aead, header.prefix, header.chunk, header.rest;
      this.reliable, this.sealedPrefix, this.chunks := reliable, sealedPrefix, chunks;
      index, buffer, done, delivered := 0, [], false, [];
      fed, clean := header.rest, true;
      assert chunks[..0] == [];
      assert Consumed(aead, sealedPrefix, chunks, 0) == [];
    }

    /** `io.ReadFull`: on a short or failing source some of it is gone all the same. */
    method ReadFull(n: nat) returns (got: Option<bytes>)
      modifies this`source
      ensures got.Some? ==> |got.value| == n && old(source) == got.value + source
      ensures reliable && n <= |old(source)| ==> got.Some?
      ensures EndsWith(old(source), source)
    {
      var fails: bool, lost: nat := *, *;
      if |source| < n || (fails && !reliable) {
        source := source[if lost < |source| then lost else |source|..];
        return None;
      }
      got := Some(source[..n]);
      source := source[n..];
    }

    /** The header and the ciphertext of the next record, as far as lengths can be checked. */
    method ReadSealed(ghost flag: byte, ghost text: bytes, ghost rest: bytes) returns (got: Option<(byte, bytes)>)
      modifies this`source
      ensures
        && reliable && Tagged(aead) && chunk <= 16 * CHUNK && flag <= 1 && |text| <= chunk
        && old(source) == Record(aead, prefix, flag, text, index) + rest
        ==>
          got == Some((flag, aead.seal(Nonce(prefix, index), text, Aad(flag, index)))) && source == rest
      ensures got.Some? ==> old(source) == RecordHeader(got.value.0, got.value.1) + got.value.1 + source
      ensures got.Some? ==> got.value.0 <= 1 && 16 <= |got.value.1| <= chunk + 16
      ensures EndsWith(old(source), source)
    {
      ghost var start, sealed := source, aead.seal(Nonce(prefix, index), text, Aad(flag, index));
      ghost var expected :=
        Tagged(aead) && |text| <= 16 * CHUNK && source == Record(aead, prefix, flag, text, index) + rest;
      if expected {
        RecordShape(flag, sealed, rest);
      }
      var head := ReadFull(5);
      if head.None? { return None; }
      var f, length := head.value[0], FromBigEndian(head.value[1..]);
      assert expected ==> head.value == start[..5];
      if f > 1 || length < OVERHEAD || length > chunk + OVERHEAD { return None; }
      var ciphertext := ReadFull(length);
      if ciphertext.None? { return None; }
      assert expected ==> start[5..] == sealed + rest && |sealed| == length && ciphertext.value == start[5..][..length];
      got := Some((f, ciphertext.value));
      HeaderRead(head.value, ciphertext.value);
      Assoc(head.value, ciphertext.value, source);
    }

    /** What the source holds behind the next record, if it is honest. */
    ghost function AfterNext(): bytes
      reads this
    {
      if index < |chunks| then Stream(aead, prefix, chunks[index + 1..], index + 1) else []
    }

    /** Read and open the next record. */
    method OpenNext() returns (got: Option<(byte, bytes)>)
      requires Valid() && !done
      modifies this`source
      ensures got.Some? ==> index <= |chunks| && got.value == (FlagAt(chunks, index), TextAt(chunks, index))
      ensures old(Honest()) ==> got.Some? && source == AfterNext()
      ensures got.Some? ==>
        old(source) == Record(aead, sealedPrefix, got.value.0, got.value.1, index) + source
      ensures got.Some? && Tagged(aead) ==> |got.value.1| <= chunk
      ensures EndsWith(old(source), source)
    {
      ghost var honest := Honest();
      if honest {
        HonestRecord(aead, prefix, chunks, index);
        assert Reopens(aead, prefix, chunks, index);
      }
      got := ReadSealed(FlagAt(chunks, index), TextAt(chunks, index), AfterNext());
      if got.None? { return; }
      var (flag, ciphertext) := got.value;
      var text := aead.open(Nonce(prefix, index), ciphertext, Aad(flag, index));
      if text.None? { return None; }
      OpenedText(aead, prefix, ciphertext, flag, index, sealedPrefix, chunks);
      got := Some((flag, text.value));
    }

    /** `readRecord`. The index moves on as soon as a record opens, even if what it holds is then rejected. */
    method ReadRecord() returns (ok: bool)
      requires Valid() && buffer == [] && !done
      modifies this`source, this`index, this`buffer, this`done, this`clean
      ensures Valid() && clean == (old(clean) && ok)
      ensures ok ==> buffer != [] || done
      ensures old(Honest()) ==> ok && Honest()
    {
      hide Ideal, Consumed, Record, EndsWith, RecordsOf, Stream, Flatten;
      ghost var faultless := clean;
      clean := false;
      ghost var record;
      var got;
      got, record := TakeNext();
      if got.None? { return false; }
      Assoc(Consumed(aead, sealedPrefix, chunks, index), record, source);
      ok := Accept(got.value.0, got.value.1, record);
      clean := ok && faultless;
    }

    /** `OpenNext` with what it means for the bytes read so far. */
    method TakeNext() returns (got: Option<(byte, bytes)>, ghost record: bytes)
      requires Valid() && !done && !clean
      modifies this`source
      ensures got.None? ==> Valid()
      ensures got.Some? ==>
        && index <= |chunks| && got.value == (FlagAt(chunks, index), TextAt(chunks, index))
        && record == Record(aead, sealedPrefix, got.value.0, got.value.1, index) && old(source) == record + source
        && Flatten(chunks[..Opened(chunks, index + 1)])
           == Flatten(chunks[..Opened(chunks, index)]) + got.value.1
        && Consumed(aead, sealedPrefix, chunks, index + 1) == Consumed(aead, sealedPrefix, chunks, index) + record
        && EndsWith(fed, record + source) && EndsWith(fed, source)
      ensures old(Honest()) ==> got.Some? && source == AfterNext()
    {
      hide Ideal, Consumed, Record, RecordsOf;
      got := OpenNext();
      record := [];
      if got.None? {
        EndsWithTail(fed, old(source), source);
        return;
      }
      record := Record(aead, sealedPrefix, got.value.0, got.value.1, index);
      OpenedNext(chunks, index);
      ConsumedNext(aead, sealedPrefix, chunks, index);
      EndsWithTail(fed, old(source), source);
    }

    /** What `readRecord` does with a record that opened. */
    method Accept(flag: byte, text: bytes, ghost record: bytes) returns (ok: bool)
      requires Valid() && buffer == [] && !done && !clean
      requires index <= |chunks| && flag == FlagAt(chunks, index) && text == TextAt(chunks, index)
      requires Flatten(chunks[..Opened(chunks, index + 1)]) == Flatten(chunks[..Opened(chunks, index)]) + text
      requires record == Record(aead, sealedPrefix, flag, text, index) && EndsWith(fed, record + source)
      modifies this`source, this`index, this`buffer, this`done
      ensures Valid() && index == old(index) + 1
      ensures ok ==> if flag == 1 then done && source == [] else !done && buffer == text && text != []
      ensures ok ==> source == old(source)
      ensures reliable && (if flag == 1 then old(source) == [] else text != []) ==> ok
    {
      hide Ideal, Consumed, Record, Flatten;
      index := index + 1;
      assert delivered + text == delivered + buffer + text;
      if flag == 1 {
        if text != [] { return false; }
        var probeFails: bool := *;
        if source != [] {
          var extra := ReadFull(1);
          EndsWithTail(fed, old(source), source);
          return false;
        }
        if probeFails && !reliable { return false; }
        assert record + source == record;
        done := true;
        return true;
      }
      if text == [] { return false; }
      buffer := text;
      ok := true;
    }

    /** `Read`: hand out buffered bytes, opening records until there are some or the stream has ended. */
    method Read(size: nat) returns (result: ReadResult)
      requires Valid()
      modifies this
      ensures Valid()
      ensures delivered == old(delivered) + (if result.Bytes? then result.data else [])
      ensures delivered <= Flatten(chunks) && (old(done) ==> done)
      ensures clean == (old(clean) && !result.Invalid?)
      ensures result.EndOfFile? ==> done && delivered == Flatten(chunks) && source == []
      ensures old(Honest()) ==> Honest() && !result.Invalid?
      ensures result.Bytes? && size > 0 ==> result.data != []
      ensures result.Bytes? ==> |result.data| <= size && (|result.data| < size ==> buffer == [])
    {
      ghost var before := delivered;
      while buffer == [] && !done
        invariant Valid() && delivered == before && clean == old(clean) && (old(done) ==> done)
        invariant old(Honest()) ==> Honest()
        decreases |buffer| == 0 && !done
      {
        var ok := ReadRecord();
        if !ok {
          DeliveredPrefix(chunks, index, delivered, buffer);
          assert delivered == before + [];
          return Invalid;
        }
      }
      DeliveredPrefix(chunks, index, delivered, buffer);
      if buffer == [] {
        assert delivered == before + [];
        return EndOfFile;
      }
      var count := if size < |buffer| then size else |buffer|;
      result := Bytes(buffer[..count]);
      Assoc(delivered, buffer[..count], buffer[count..]);
      assert buffer == buffer[..count] + buffer[count..];
      delivered := delivered + buffer[..count];
      buffer := buffer[count..];
      DeliveredPrefix(chunks, index, delivered, buffer);
    }
  }

  predicate EndsWith(whole: bytes, tail: bytes) { |tail| <= |whole| && whole[|whole| - |tail|..] == tail }

  lemma EndsWithin(whole: bytes, middle: bytes, front: bytes, tail: bytes)
    requires EndsWith(whole, middle) && middle == front + tail
    ensures EndsWith(whole, tail)
  {
    assert middle[|front|..] == tail;
  }

  lemma EndsWithTail(whole: bytes, middle: bytes, tail: bytes)
    requires EndsWith(whole, middle) && EndsWith(middle, tail)
    ensures EndsWith(whole, tail)
  {
    EndsWithin(whole, middle, middle[..|middle| - |tail|], tail);
  }

  function Terminal(aead: Aead, prefix: bytes, chunks: seq<bytes>): bytes
  {
    Record(aead, prefix, 1, [], |chunks|)
  }

  /** The bytes of the records up to an index, the terminal one included. */
  function Consumed(aead: Aead, prefix: bytes, chunks: seq<bytes>, index: nat): bytes
  {
    RecordsOf(aead, prefix, chunks[..Opened(chunks, index)], 0)
    + if index > |chunks| then Record(aead, prefix, 1, [], |chunks|) else []
  }

  lemma ConsumedNext(aead: Aead, prefix: bytes, chunks: seq<bytes>, index: nat)
    requires index <= |chunks|
    ensures Consumed(aead, prefix, chunks, index + 1)
            == Consumed(aead, prefix, chunks, index)
               + Record(aead, prefix, FlagAt(chunks, index), TextAt(chunks, index), index)
  {
    if index < |chunks| {
      assert chunks[..index + 1] == chunks[..index] + [chunks[index]];
      RecordsAppend(aead, prefix, chunks[..index], chunks[index], 0);
    }
  }

  lemma HeaderRead(head: bytes, ciphertext: bytes)
    requires |head| == 5 && FromBigEndian(head[1..]) == |ciphertext|
    ensures RecordHeader(head[0], ciphertext) == head
  {
    FromBigEndianInverse(head[1..]);
    assert head == [head[0]] + head[1..];
  }

  lemma RecordShape(flag: byte, sealed: bytes, rest: bytes)
    requires OVERHEAD <= |sealed| <= 16 * CHUNK + OVERHEAD
    ensures var record := RecordHeader(flag, sealed) + sealed + rest;
      |record| >= 5 && record[0] == flag && FromBigEndian(record[..5][1..]) == |sealed| && record[5..] == sealed + rest
  {
    var record := RecordHeader(flag, sealed) + sealed + rest;
    Limits();
    BigEndianInverse(|sealed|, 4);
    assert record[..5] == RecordHeader(flag, sealed);
    assert record[..5][1..] == BigEndian(|sealed|, 4);
  }

  /** The writer's output from an index on starts with the record of that index. */
  lemma HonestRecord(aead: Aead, prefix: bytes, chunks: seq<bytes>, index: nat)
    requires index <= |chunks|
    ensures Stream(aead, prefix, chunks[index..], index)
            == Record(aead, prefix, FlagAt(chunks, index), TextAt(chunks, index), index)
               + (if index < |chunks| then Stream(aead, prefix, chunks[index + 1..], index + 1) else [])
  {
    hide Record;
    if index < |chunks| {
      assert chunks[index..][1..] == chunks[index + 1..];
      Assoc(Record(aead, prefix, 0, chunks[index], index), RecordsOf(aead, prefix, chunks[index + 1..], index + 1),
            Record(aead, prefix, 1, [], |chunks|));
    } else {
      assert chunks[index..] == [];
      assert [] + Record(aead, prefix, 1, [], index) == Record(aead, prefix, 1, [], index) + [];
    }
  }

  lemma OpenedNext(chunks: seq<bytes>, index: nat)
    ensures Flatten(chunks[..Opened(chunks, index + 1)])
            == Flatten(chunks[..Opened(chunks, index)]) + TextAt(chunks, index)
  {
    if index < |chunks| {
      FlattenAppend(chunks[..index], chunks[index]);
      assert chunks[..index + 1] == chunks[..index] + [chunks[index]];
    } else {
      assert Flatten(chunks[..|chunks|]) + [] == Flatten(chunks[..|chunks|]);
    }
  }

  lemma {:induction false} FlattenPrefix(chunks: seq<bytes>, n: nat)
    requires n <= |chunks|
    ensures Flatten(chunks[..n]) <= Flatten(chunks)
  {
    if n == 0 {
      assert chunks[..n] == [];
    } else {
      assert chunks[..n][1..] == chunks[1..][..n - 1];
      FlattenPrefix(chunks[1..], n - 1);
    }
  }

  lemma DeliveredPrefix(chunks: seq<bytes>, index: nat, delivered: bytes, buffer: bytes)
    requires delivered + buffer == Flatten(chunks[..Opened(chunks, index)])
    ensures delivered <= Flatten(chunks)
    ensures index > |chunks| && buffer == [] ==> delivered == Flatten(chunks)
  {
    FlattenPrefix(chunks, Opened(chunks, index));
    assert chunks[..|chunks|] == chunks;
    assert delivered <= delivered + buffer;
    if buffer == [] { assert delivered + buffer == delivered; }
  }

  /** How many chunks have been opened when the reader stands at this index. */
  function Opened(chunks: seq<bytes>, index: nat): nat { if index < |chunks| then index else |chunks| }

  /** What opens at the reader's index is the writer's own ciphertext there, under the flag it used. */
  lemma OpenedText(aead: Aead, prefix: bytes, ciphertext: bytes, flag: byte, index: nat, sealedPrefix: bytes,
                   chunks: seq<bytes>)
    requires Ideal(aead, sealedPrefix, chunks) && |prefix| == |sealedPrefix| && |chunks| + 1 < INDEX_LIMIT
    requires index <= |chunks| + 1 && aead.open(Nonce(prefix, index), ciphertext, Aad(flag, index)).Some?
    ensures index <= |chunks| && flag == FlagAt(chunks, index)
    ensures aead.open(Nonce(prefix, index), ciphertext, Aad(flag, index)).value == TextAt(chunks, index)
    ensures RecordHeader(flag, ciphertext) + ciphertext
            == Record(aead, sealedPrefix, flag, TextAt(chunks, index), index)
  {
    var nonce, aad := Nonce(prefix, index), Aad(flag, index);
    var k: nat :| k <= |chunks| && OpensAt(aead, nonce, ciphertext, aad, sealedPrefix, chunks, k);
    NonceInjective(prefix, sealedPrefix, flag, FlagAt(chunks, k), index, k);
  }

  // ----- Whole runs -----

  lemma HeaderParses(magic: bytes, salt: bytes, prefix: bytes, rest: bytes)
    requires |magic| == 8 && |salt| == SALT_SIZE && |prefix| == NONCE_PREFIX
    ensures ParseHeader(HeaderBytes(magic, salt, prefix) + rest, magic)
            == Some(Header(salt, prefix, CHUNK, rest))
  {
    var source := HeaderBytes(magic, salt, prefix) + rest;
    Limits();
    BigEndianInverse(CHUNK, 4);
    assert source[..8] == magic && source[8..24] == salt && source[24..40] == prefix;
    assert source[48..52] == BigEndian(CHUNK, 4) && source[52..] == rest;
  }

  lemma {:induction false} SplitSizes(data: bytes)
    ensures forall i | 0 <= i < |Split(data)| :: 0 < |Split(data)[i]| <= CHUNK
    decreases |data|
  {
    if |data| > CHUNK { SplitSizes(data[CHUNK..]); }
  }

  /**
   Reading on whatever source there is, with any buffer sizes and on past every error, yields a prefix of what was
   sealed. An end of file is reported only after all of it, and then the terminal record came last in the source; if
   no error came before, the source behind the header was, byte for byte, the stream the writer made.
   */
  method ReadAnything(aead: Aead, source: bytes, magic: bytes, sizes: seq<nat>, ghost prefix: bytes, ghost data: bytes)
    returns (got: bytes, ended: bool, failed: bool)
    requires |magic| == 8 && |prefix| == NONCE_PREFIX
    requires |Split(data)| + 1 < INDEX_LIMIT && Ideal(aead, prefix, Split(data))
    ensures got <= data
    ensures ended ==> got == data && EndsWith(source, Terminal(aead, prefix, Split(data)))
    ensures ended && !failed ==>
      |source| >= HEADER_SIZE && source[HEADER_SIZE..] == Stream(aead, prefix, Split(data), 0)
  {
    hide Split, Flatten, Stream, Record, Consumed, Ideal, Terminal, EndsWith;
    got, ended, failed := [], false, false;
    ghost var chunks := Split(data);
    var header := ParseHeader(source, magic);
    if header.None? { return got, false, true; }
    var reader := new Reader(aead, header.value, false, prefix, chunks);
    FlattenSplit(data);
    for i := 0 to |sizes|
      invariant reader.Valid() && reader.chunks == chunks && got == reader.delivered && fresh(reader)
      invariant reader.fed == header.value.rest && reader.aead == aead && reader.sealedPrefix == prefix
      invariant got <= data && (ended ==> got == data && reader.done) && (!failed ==> reader.clean)
    {
      var result := reader.Read(sizes[i]);
      if result.Bytes? { got := got + result.data; }
      ended := ended || result.EndOfFile?;
      failed := failed || result.Invalid?;
    }
    if ended { EndCertified(aead, prefix, chunks, source, header.value.rest, reader.clean); }
  }

  /** What a finished reader has been fed. */
  lemma EndCertified(aead: Aead, prefix: bytes, chunks: seq<bytes>, source: bytes, rest: bytes, clean: bool)
    requires |source| >= HEADER_SIZE && rest == source[HEADER_SIZE..]
    requires EndsWith(rest, Terminal(aead, prefix, chunks))
    requires clean ==> rest == Consumed(aead, prefix, chunks, |chunks| + 1) + []
    ensures EndsWith(source, Terminal(aead, prefix, chunks))
    ensures clean ==> source[HEADER_SIZE..] == Stream(aead, prefix, chunks, 0)
  {
    hide Record;
    EndsWithTail(source, rest, Terminal(aead, prefix, chunks));
    assert chunks[..|chunks|] == chunks;
  }

  /**
   The bytes written for a list of pieces depend on their concatenation alone, and the indices sealed are
   0, 1, ..., n, each once.
   */
  method WriteAll(aead: Aead, magic: bytes, salt: bytes, prefix: bytes, pieces: seq<bytes>, reliable: bool)
    returns (output: Option<bytes>, ghost sealed: seq<Sealed>)
    ensures output.Some? ==>
      output.value == HeaderBytes(magic, salt, prefix) + Stream(aead, prefix, Split(Flatten(pieces)), 0)
    ensures output.Some? ==> |sealed| == |Split(Flatten(pieces))| + 1 && InOrder(sealed)
    ensures EachIndexOnce(sealed)
    ensures reliable ==> output.Some?
  {
    var writer := new Writer(aead, magic, salt, prefix, reliable);
    assert pieces[..0] == [];
    for i := 0 to |pieces|
      invariant writer.Valid() && !writer.closed && !writer.broken && fresh(writer) && writer.reliable == reliable
      invariant writer.Data() == Flatten(pieces[..i]) && writer.aead == aead && writer.prefix == prefix
      invariant writer.header == HeaderBytes(magic, salt, prefix)
    {
      var written, ok := writer.Write(pieces[i]);
      if !ok { return None, writer.sealed; }
      FlattenAppend(pieces[..i], pieces[i]);
      WholePiece(pieces, i);
    }
    assert pieces[..|pieces|] == pieces;
    var ok := writer.Close();
    sealed := writer.sealed;
    output := if ok then Some(writer.output) else None;
  }

  lemma WholePiece(pieces: seq<bytes>, i: nat)
    requires i < |pieces|
    ensures pieces[..i + 1] == pieces[..i] + [pieces[i]] && pieces[i][..|pieces[i]|] == pieces[i]
  {
  }

  /** One read of an honest stream into a buffer of some positive size. */
  method ReadSome(reader: Reader) returns (data: bytes, ended: bool)
    requires reader.Valid() && reader.Honest()
    modifies reader
    ensures reader.Valid() && reader.Honest() && reader.delivered == old(reader.delivered) + data
    ensures reader.delivered <= Flatten(reader.chunks)
    ensures if ended then reader.delivered == Flatten(reader.chunks) else data != []
  {
    var size: nat :| size > 0;
    var result := reader.Read(size);
    ended := result.EndOfFile?;
    data := if ended then [] else result.data;
  }

  /** Read an honest stream to its end. */
  method Drain(reader: Reader) returns (all: bytes)
    requires reader.Valid() && reader.Honest() && reader.delivered == []
    modifies reader
    ensures all == Flatten(reader.chunks)
  {
    ghost var total := Flatten(reader.chunks);
    all := [];
    var ended := false;
    while !ended
      invariant reader.Valid() && reader.Honest()
      invariant all == reader.delivered && |all| <= |total|
      invariant ended ==> all == total
      decreases !ended, |total| - |all|
    {
      var data;
      data, ended := ReadSome(reader);
      all := all + data;
    }
  }

  /** With a reliable destination and source, reading back what was written returns exactly what was written. */
  method WriteThenRead(aead: Aead, magic: bytes, salt: bytes, prefix: bytes, pieces: seq<bytes>)
    returns (got: bytes)
    requires |magic| == 8 && |salt| == SALT_SIZE && |prefix| == NONCE_PREFIX
    requires |Split(Flatten(pieces))| + 1 < INDEX_LIMIT
    requires Ideal(aead, prefix, Split(Flatten(pieces))) && Correct(aead, prefix, Split(Flatten(pieces)))
    ensures got == Flatten(pieces)
  {
    var output; ghost var sealed;
    output, sealed := WriteAll(aead, magic, salt, prefix, pieces, true);
    ghost var chunks := Split(Flatten(pieces));
    HeaderParses(magic, salt, prefix, Stream(aead, prefix, chunks, 0));
    var header := ParseHeader(output.value, magic).value;
    var reader := new Reader(aead, header, true, prefix, chunks);
    SplitSizes(Flatten(pieces));
    FlattenSplit(Flatten(pieces));
    assert chunks[0..] == chunks;
    got := Drain(reader);
  }
}
