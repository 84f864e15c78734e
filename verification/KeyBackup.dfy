/**
 The portable key backups (cmd/license-generator/backup.go, internal/licenseissuer/backup.go): an encrypted envelope
 for one key, and two formats that join several envelopes. A Go string and a byte slice are both written as a string
 here, one character for a byte; only a password is written rune by rune, the unit its minimum length counts.
 */
module KeyBackup {
  import opened Ordering
  import opened Splitting

  const V1 := "TCPKEYBACKUP1"
  const V2 := "TCPKEYBACKUP2"
  const V3 := "TCPKEYBACKUP3"

  const KEY_SIZE := 64
  const ID_SIZE := 16
  const SEED_SIZE := 32
  const BINDING_SIZE := 16
  const SALT_SIZE := 16
  const NONCE_SIZE := 12
  const TAG_SIZE := 16
  /** In runes. */
  const PASSWORD_MINIMUM := 12

  datatype Error = Initialization | InvalidPrivateKey | PasswordRequired | PasswordTooShort | InvalidBackup

  datatype Result<+T> = Ok(value: T) | Err(error: Error)

  /** The salt and nonce one envelope draws. */
  datatype Draw = Draw(salt: string, nonce: string)

  predicate ValidDraw(d: Draw) { |d.salt| == SALT_SIZE && |d.nonce| == NONCE_SIZE }

  /** base64url without padding, scrypt with AES-GCM, a truncated SHA-256, and Ed25519's check of a private key. */
  datatype Codec = Codec(encode: string -> string, decode: string -> Option<string>, encodedLength: nat -> nat,
                         seal: (string, Draw, string) -> string, open: (string, Draw, string) -> Option<string>,
                         digest: string -> string, derives: string -> bool)

  ghost predicate Sound(codec: Codec)
  {
    && (forall b :: codec.decode(codec.encode(b)) == Some(b) && '.' !in codec.encode(b))
    && (forall b :: |codec.encode(b)| == codec.encodedLength(|b|))
    && (forall p, d, k :: codec.open(p, d, codec.seal(p, d, k)) == Some(k))
    && (forall p, d, k :: |codec.seal(p, d, k)| == |k| + TAG_SIZE)
    && (forall t :: |codec.digest(t)| == BINDING_SIZE)
  }

  /** Two characters for each, none of them a dot. */
  function Escape(b: string): string
  {
    if b == "" then "" else (if b[0] == '.' then ['-', 'd'] else [b[0], 'c']) + Escape(b[1..])
  }

  function Unescape(s: string): string
  {
    if |s| < 2 then "" else [if s[1] == 'd' then '.' else s[0]] + Unescape(s[2..])
  }

  lemma {:induction false} EscapeInverse(b: string)
    ensures Unescape(Escape(b)) == b && '.' !in Escape(b) && |Escape(b)| == 2 * |b|
  {
    if b != "" {
      EscapeInverse(b[1..]);
      assert Escape(b)[2..] == Escape(b[1..]);
      assert b == [b[0]] + b[1..];
    }
  }

  /** The assumptions on the codec can hold together. */
  lemma CodecExists() returns (codec: Codec)
    ensures Sound(codec)
  {
    var tag := seq(TAG_SIZE, i => 't');
    codec := Codec(Escape, s => Some(Unescape(s)), n => 2 * n, (p, d, k) => k + tag,
                   (p, d, c) => if |c| < TAG_SIZE then None else Some(c[..|c| - TAG_SIZE]),
                   t => seq(BINDING_SIZE, i => 'b'), k => true);
    forall b ensures codec.decode(codec.encode(b)) == Some(b) && '.' !in codec.encode(b)
      ensures |codec.encode(b)| == codec.encodedLength(|b|)
    { EscapeInverse(b); }
    forall p, d, k ensures codec.open(p, d, codec.seal(p, d, k)) == Some(k) {
      assert (k + tag)[..|k + tag| - TAG_SIZE] == k;
    }
  }

  function Dotted(parts: seq<string>): string
    requires parts != []
  {
    JoinOn('.', parts)
  }

  function Parts(text: string): (r: seq<string>)
    ensures |r| >= 1
  {
    SplitOn('.', text)
  }

  // ----- One key -----

  /** `BackupPrivateKey`. */
  function Envelope(codec: Codec, key: string, password: string, draw: Draw): Result<string>
  {
    if |key| != KEY_SIZE then Err(InvalidPrivateKey)
    else if password == "" then Err(PasswordRequired)
    else if |password| < PASSWORD_MINIMUM then Err(PasswordTooShort)
    else Ok(Dotted([V1, codec.encode(draw.salt), codec.encode(draw.nonce),
                    codec.encode(codec.seal(password, draw, key))]))
  }

  /** `decodeBackupPart`: the right length, and nothing but the encoding of what it decodes to. */
  function DecodeSized(codec: Codec, value: string, size: nat): Option<string>
  {
    if |value| != codec.encodedLength(size) then None else
    var decoded := codec.decode(value);
    if decoded.None? || |decoded.value| != size || codec.encode(decoded.value) != value then None else decoded
  }

  /** `RestorePrivateKey`. */
  function OpenEnvelope(codec: Codec, backup: string, password: string): Result<string>
  {
    if password == "" then Err(PasswordRequired) else
    var parts := Parts(backup);
    if |parts| != 4 || parts[0] != V1 then Err(InvalidBackup) else
    var salt := DecodeSized(codec, parts[1], SALT_SIZE);
    var nonce := DecodeSized(codec, parts[2], NONCE_SIZE);
    var ciphertext := DecodeSized(codec, parts[3], KEY_SIZE + TAG_SIZE);
    if salt.None? || nonce.None? || ciphertext.None? then Err(InvalidBackup) else
    var plaintext := codec.open(password, Draw(salt.value, nonce.value), ciphertext.value);
    if plaintext.None? || |plaintext.value| != KEY_SIZE then Err(InvalidBackup) else Ok(plaintext.value)
  }

  lemma DottedParts(parts: seq<string>)
    requires parts != [] && Without('.', parts)
    ensures Parts(Dotted(parts)) == parts
  {
    SplitJoin('.', parts);
  }

  lemma DecodeSizedEncoded(codec: Codec, b: string, size: nat)
    requires Sound(codec)
    ensures DecodeSized(codec, codec.encode(b), size) == if |b| == size then Some(b) else None
  {
  }

  lemma EnvelopeRoundTrip(codec: Codec, key: string, password: string, draw: Draw)
    requires Sound(codec) && ValidDraw(draw)
    ensures Envelope(codec, key, password, draw).Ok? <==> |key| == KEY_SIZE && |password| >= PASSWORD_MINIMUM
    ensures var r := Envelope(codec, key, password, draw);
            r.Ok? ==> OpenEnvelope(codec, r.value, password) == Ok(key) && V1 + "." <= r.value
  {
    hide Parts, Dotted, DecodeSized;
    var r := Envelope(codec, key, password, draw);
    if r.Ok? {
      var sealed := codec.seal(password, draw, key);
      var parts := [V1, codec.encode(draw.salt), codec.encode(draw.nonce), codec.encode(sealed)];
      NoDot();
      DottedParts(parts);
      FirstOf(r.value, V1);
      DecodeSizedEncoded(codec, draw.salt, SALT_SIZE);
      DecodeSizedEncoded(codec, draw.nonce, NONCE_SIZE);
      DecodeSizedEncoded(codec, sealed, KEY_SIZE + TAG_SIZE);
    }
  }

  /** Which error a key that cannot be sealed gets. */
  lemma EnvelopeErrors(codec: Codec, key: string, password: string, draw: Draw)
    ensures var r := Envelope(codec, key, password, draw);
            && (r == Err(InvalidPrivateKey) <==> |key| != 64)
            && (r == Err(PasswordRequired) <==> |key| == 64 && |password| == 0)
            && (r == Err(PasswordTooShort) <==> |key| == 64 && 0 < |password| < 12)
            && (r.Err? ==> r.error !in {Initialization, InvalidBackup})
  {
    hide Dotted;
  }

  /** The text is this salt, nonce and ciphertext as they are written, and under the password they hold the key. */
  predicate Wraps(codec: Codec, text: string, password: string, key: string, draw: Draw, ciphertext: string)
  {
    && text == Dotted(["TCPKEYBACKUP1", codec.encode(draw.salt), codec.encode(draw.nonce), codec.encode(ciphertext)])
    && |draw.salt| == 16 && |draw.nonce| == 12 && |ciphertext| == 80
    && codec.open(password, draw, ciphertext) == Some(key)
  }

  /** An envelope opens exactly if it is written the one way it can be written, and what it holds is 64 bytes. */
  lemma OpenExact(codec: Codec, text: string, password: string, key: string)
    requires Sound(codec)
    ensures OpenEnvelope(codec, text, password) == Ok(key) <==>
            |password| > 0 && |key| == 64 && exists d, c :: Wraps(codec, text, password, key, d, c)
    ensures var r := OpenEnvelope(codec, text, password);
            r.Err? ==> r.error == if |password| == 0 then PasswordRequired else InvalidBackup
  {
    hide Parts, Dotted, DecodeSized;
    var parts := Parts(text);
    if OpenEnvelope(codec, text, password) == Ok(key) {
      var salt, nonce := DecodeSized(codec, parts[1], SALT_SIZE), DecodeSized(codec, parts[2], NONCE_SIZE);
      var ciphertext := DecodeSized(codec, parts[3], KEY_SIZE + TAG_SIZE);
      DecodedSized(codec, parts[1], SALT_SIZE);
      DecodedSized(codec, parts[2], NONCE_SIZE);
      DecodedSized(codec, parts[3], KEY_SIZE + TAG_SIZE);
      PartsDotted(text);
      assert parts == ["TCPKEYBACKUP1", codec.encode(salt.value), codec.encode(nonce.value),
                       codec.encode(ciphertext.value)];
      assert Wraps(codec, text, password, key, Draw(salt.value, nonce.value), ciphertext.value);
    }
    if d, c :| |password| > 0 && |key| == 64 && Wraps(codec, text, password, key, d, c) {
      NoDot();
      DottedParts(["TCPKEYBACKUP1", codec.encode(d.salt), codec.encode(d.nonce), codec.encode(c)]);
      DecodeSizedEncoded(codec, d.salt, SALT_SIZE);
      DecodeSizedEncoded(codec, d.nonce, NONCE_SIZE);
      DecodeSizedEncoded(codec, c, KEY_SIZE + TAG_SIZE);
    }
  }

  lemma PartsDotted(text: string)
    ensures Dotted(Parts(text)) == text
  {
    JoinSplit('.', text);
  }

  lemma DecodedSized(codec: Codec, value: string, size: nat)
    ensures var r := DecodeSized(codec, value, size); r.Some? ==> |r.value| == size && codec.encode(r.value) == value
  {
  }

  lemma NoDot()
    ensures '.' !in V1 && '.' !in V2 && '.' !in V3
  {
  }

  lemma FirstOf(text: string, head: string)
    requires '.' !in head
    ensures |Parts(text)| > 1 && Parts(text)[0] == head <==> head + "." <= text
  {
    FirstPart('.', text, head);
  }

  // ----- Seed identifiers -----

  function Nibble(c: char): Option<nat>
  {
    if '0' <= c <= '9' then Some(c as int - '0' as int)
    else if 'a' <= c <= 'f' then Some(c as int - 'a' as int + 10)
    else if 'A' <= c <= 'F' then Some(c as int - 'A' as int + 10)
    else None
  }

  function Digit(n: nat): char
    requires n < 16
  {
    if n < 10 then (n + '0' as int) as char else (n - 10 + 'a' as int) as char
  }

  function HexDecode(s: string): Option<string>
  {
    if s == "" then Some("") else
    if |s| == 1 || Nibble(s[0]).None? || Nibble(s[1]).None? then None else
    var rest := HexDecode(s[2..]);
    if rest.None? then None else Some([(Nibble(s[0]).value * 16 + Nibble(s[1]).value) as char] + rest.value)
  }

  function HexEncode(b: string): string
  {
    if b == "" then "" else
    [Digit(b[0] as int / 16 % 16), Digit(b[0] as int % 16)] + HexEncode(b[1..])
  }

  predicate LowerHex(s: string) { forall i | 0 <= i < |s| :: '0' <= s[i] <= '9' || 'a' <= s[i] <= 'f' }

  predicate ValidSeed(id: string, key: string) { |id| == 32 && LowerHex(id) && |key| == SEED_SIZE }

  lemma NibbleRoundTrip(c: char, d: char)
    requires LowerHex([c, d])
    ensures Nibble(c).Some? && Nibble(d).Some?
    ensures var v := Nibble(c).value * 16 + Nibble(d).value;
            v < 256 && Digit(v / 16 % 16) == c && Digit(v % 16) == d
  {
    assert LowerHex([c]) && LowerHex([d]) by { assert [c, d][0] == c && [c, d][1] == d; }
    NibbleDigit(c);
    NibbleDigit(d);
    var h, l := Nibble(c).value, Nibble(d).value;
    assert (h * 16 + l) / 16 == h && (h * 16 + l) % 16 == l;
  }

  lemma NibbleDigit(c: char)
    requires LowerHex([c])
    ensures Nibble(c).Some? && Nibble(c).value < 16 && Digit(Nibble(c).value) == c
  {
    assert [c][0] == c;
  }

  /** Only lower-case identifiers come back as they were. */
  lemma {:induction false} HexRoundTrip(s: string)
    requires LowerHex(s) && |s| % 2 == 0
    ensures HexDecode(s).Some? && |HexDecode(s).value| == |s| / 2 && HexEncode(HexDecode(s).value) == s
  {
    if s != "" {
      hide Nibble, Digit;
      HexRoundTrip(s[2..]);
      assert LowerHex([s[0], s[1]]);
      NibbleRoundTrip(s[0], s[1]);
      assert s == [s[0], s[1]] + s[2..];
      var b := HexDecode(s).value;
      assert b[1..] == HexDecode(s[2..]).value;
    }
  }

  predicate Bytes(b: string) { forall i | 0 <= i < |b| :: b[i] as int < 256 }

  lemma DigitNibble(n: nat)
    requires n < 16
    ensures LowerHex([Digit(n)]) && Nibble(Digit(n)) == Some(n)
  {
  }

  lemma LowerPair(high: nat, low: nat, rest: string)
    requires high < 16 && low < 16 && LowerHex(rest)
    ensures LowerHex([Digit(high), Digit(low)] + rest)
  {
    DigitNibble(high);
    DigitNibble(low);
    assert [Digit(high)][0] == Digit(high) && [Digit(low)][0] == Digit(low);
    hide Digit;
  }

  lemma DecodePair(high: nat, low: nat, rest: string)
    requires high < 16 && low < 16
    ensures HexDecode([Digit(high), Digit(low)] + rest)
            == if HexDecode(rest).None? then None else Some([(high * 16 + low) as char] + HexDecode(rest).value)
  {
    hide Digit, Nibble;
    DigitNibble(high);
    DigitNibble(low);
    assert ([Digit(high), Digit(low)] + rest)[2..] == rest;
  }

  /** Encoding yields lower-case text of twice the length, from which decoding gets the bytes back. */
  lemma HexInverse(b: string)
    ensures LowerHex(HexEncode(b)) && |HexEncode(b)| == 2 * |b|
    ensures Bytes(b) ==> HexDecode(HexEncode(b)) == Some(b)
  {
    hide LowerHex, HexEncode, HexDecode;
    HexLower(b);
    if Bytes(b) { HexComesBack(b); }
  }

  lemma {:induction false} HexLower(b: string)
    ensures LowerHex(HexEncode(b)) && |HexEncode(b)| == 2 * |b|
  {
    if b != "" {
      hide Digit, LowerHex;
      HexLower(b[1..]);
      LowerPair(b[0] as int / 16 % 16, b[0] as int % 16, HexEncode(b[1..]));
    }
  }

  lemma {:induction false} HexComesBack(b: string)
    requires Bytes(b)
    ensures HexDecode(HexEncode(b)) == Some(b)
  {
    if b != "" {
      assert Bytes(b[1..]) && b[0] as int < 256;
      hide *;
      HexComesBack(b[1..]);
      ByteComesBack(b[0], b[1..]);
      assert [b[0]] + b[1..] == b;
    }
  }

  lemma ByteComesBack(c: char, rest: string)
    requires c as int < 256 && HexDecode(HexEncode(rest)) == Some(rest)
    ensures HexDecode(HexEncode([c] + rest)) == Some([c] + rest)
  {
    assert ([c] + rest)[1..] == rest;
    hide Digit, HexDecode;
    var high, low := c as int / 16 % 16, c as int % 16;
    DecodePair(high, low, HexEncode(rest));
    assert HexEncode([c] + rest) == [Digit(high), Digit(low)] + HexEncode(rest);
    assert high * 16 + low == c as int;
  }

  // ----- Several keys -----

  /** `generatorBackupMaterial`; an absent part is empty. */
  datatype Material = Material(license: string, seedID: string, seedKey: string, revocation: string)

  predicate ValidKey(codec: Codec, key: string) { |key| == KEY_SIZE && codec.derives(key) }

  predicate ValidMaterial(codec: Codec, m: Material)
  {
    ValidKey(codec, m.license) && ValidSeed(m.seedID, m.seedKey) && ValidKey(codec, m.revocation)
  }

  /** What the two bindings digest. */
  function Bound(format: string, license: string, id: string, seedKey: string, revocation: string): string
  {
    format + license + id + seedKey + revocation
  }

  function Binding3(codec: Codec, license: string, id: string, seedKey: string, revocation: string): string
  {
    codec.digest(Bound(V3, license, id, seedKey, revocation))
  }

  function Binding2(codec: Codec, license: string, id: string, seedKey: string): string
  {
    codec.digest(Bound(V2, license, id, seedKey, ""))
  }

  /** `createGeneratorBackupV3`. */
  function CreateV3(codec: Codec, m: Material, password: string, license: Draw, seed: Draw, revocation: Draw)
    : Result<string>
  {
    if !ValidMaterial(codec, m) then Err(Initialization) else
    var licenseBackup := Envelope(codec, m.license, password, license);
    if licenseBackup.Err? then licenseBackup else
    var revocationBackup := Envelope(codec, m.revocation, password, revocation);
    if revocationBackup.Err? then revocationBackup else
    var id := HexDecode(m.seedID);
    if id.None? || |id.value| != ID_SIZE then Err(Initialization) else
    var binding := Binding3(codec, m.license, id.value, m.seedKey, m.revocation);
    var seedBackup := Envelope(codec, id.value + m.seedKey + binding, password, seed);
    if seedBackup.Err? then seedBackup else
    Ok(Dotted([V3, codec.encode(licenseBackup.value), codec.encode(seedBackup.value),
               codec.encode(revocationBackup.value)]))
  }

  /** `createGeneratorBackup`. */
  function CreateV2(codec: Codec, m: Material, password: string, license: Draw, seed: Draw): Result<string>
  {
    if !ValidSeed(m.seedID, m.seedKey) then Err(Initialization) else
    var licenseBackup := Envelope(codec, m.license, password, license);
    if licenseBackup.Err? then licenseBackup else
    var id := HexDecode(m.seedID);
    if id.None? || |id.value| != ID_SIZE then Err(Initialization) else
    var binding := Binding2(codec, m.license, id.value, m.seedKey);
    var seedBackup := Envelope(codec, id.value + m.seedKey + binding, password, seed);
    if seedBackup.Err? then seedBackup else
    Ok(Dotted([V2, codec.encode(licenseBackup.value), codec.encode(seedBackup.value)]))
  }

  /** `copy` into a buffer from some position on. */
  method CopyInto(buffer: array<char>, at: nat, source: string)
    requires at + |source| <= buffer.Length
    modifies buffer
    ensures buffer[..] == old(buffer[..at]) + source + old(buffer[at + |source|..])
  {
    for i := 0 to |source|
      invariant buffer[..] == old(buffer[..at]) + source[..i] + old(buffer[at + i..])
    {
      buffer[at + i] := source[i];
      assert source[..i + 1] == source[..i] + [source[i]];
    }
    assert source[..|source|] == source;
  }

  /** `createGeneratorBackupV3` over its scratch buffer, which holds no key material afterwards. */
  method CreateBackupV3(codec: Codec, m: Material, password: string, license: Draw, seed: Draw, revocation: Draw,
                        scratch: array<char>)
    returns (r: Result<string>)
    requires Sound(codec) && scratch.Length == KEY_SIZE && Zeroed(scratch)
    modifies scratch
    ensures r == CreateV3(codec, m, password, license, seed, revocation)
    ensures Zeroed(scratch)
  {
    hide Envelope, Dotted, HexDecode, LowerHex, ValidKey;
    if !ValidMaterial(codec, m) { return Err(Initialization); }
    var licenseBackup := Envelope(codec, m.license, password, license);
    if licenseBackup.Err? { return licenseBackup; }
    var revocationBackup := Envelope(codec, m.revocation, password, revocation);
    if revocationBackup.Err? { return revocationBackup; }
    var id := HexDecode(m.seedID);
    if id.None? || |id.value| != ID_SIZE { return Err(Initialization); }
    CopyInto(scratch, 0, id.value);
    CopyInto(scratch, ID_SIZE, m.seedKey);
    var binding := Binding3(codec, m.license, id.value, m.seedKey, m.revocation);
    CopyInto(scratch, ID_SIZE + SEED_SIZE, binding);
    assert scratch[..] == id.value + m.seedKey + binding;
    var seedBackup := Envelope(codec, scratch[..], password, seed);
    Wipe(scratch);
    if seedBackup.Err? { return seedBackup; }
    r := Ok(Dotted([V3, codec.encode(licenseBackup.value), codec.encode(seedBackup.value),
                    codec.encode(revocationBackup.value)]));
  }

  /** `decodeGeneratorBackupPart`. */
  function DecodePart(codec: Codec, value: string): Option<string>
  {
    var decoded := codec.decode(value);
    if decoded.None? || decoded.value == "" || codec.encode(decoded.value) != value then None else decoded
  }

  /** The part of `restoreGeneratorBackupMaterial` after the three envelopes are open. */
  function Assemble3(codec: Codec, license: string, seed: string, revocation: string): Result<Material>
    requires |seed| == KEY_SIZE
  {
    var id, key := seed[..ID_SIZE], seed[ID_SIZE..ID_SIZE + SEED_SIZE];
    if !ValidKey(codec, license) || !ValidSeed(HexEncode(id), key) || !ValidKey(codec, revocation)
       || seed[ID_SIZE + SEED_SIZE..] != Binding3(codec, license, id, key, revocation)
    then Err(InvalidBackup)
    else Ok(Material(license, HexEncode(id), key, revocation))
  }

  function Assemble2(codec: Codec, license: string, seed: string): Result<Material>
    requires |seed| == KEY_SIZE
  {
    var id, key := seed[..ID_SIZE], seed[ID_SIZE..ID_SIZE + SEED_SIZE];
    if !ValidSeed(HexEncode(id), key) || seed[ID_SIZE + SEED_SIZE..] != Binding2(codec, license, id, key)
    then Err(InvalidBackup)
    else Ok(Material(license, HexEncode(id), key, ""))
  }

  lemma OpenedSize(codec: Codec, backup: string, password: string)
    ensures var r := OpenEnvelope(codec, backup, password); r.Ok? ==> |r.value| == KEY_SIZE
  {
    hide Parts, DecodeSized;
  }

  function RestoreV3(codec: Codec, backup: string, password: string): Result<Material>
  {
    var parts := Parts(backup);
    if |parts| != 4 || parts[0] != V3 then Err(InvalidBackup) else
    var licenseBackup := DecodePart(codec, parts[1]);
    var seedBackup := DecodePart(codec, parts[2]);
    var revocationBackup := DecodePart(codec, parts[3]);
    if licenseBackup.None? || seedBackup.None? || revocationBackup.None? then Err(InvalidBackup) else
    var license := OpenEnvelope(codec, licenseBackup.value, password);
    if license.Err? then Err(license.error) else
    var seed := OpenEnvelope(codec, seedBackup.value, password);
    if seed.Err? then Err(seed.error) else
    var revocation := OpenEnvelope(codec, revocationBackup.value, password);
    if revocation.Err? then Err(revocation.error) else
    OpenedSize(codec, seedBackup.value, password);
    Assemble3(codec, license.value, seed.value, revocation.value)
  }

  function RestoreV2(codec: Codec, backup: string, password: string): Result<Material>
  {
    var parts := Parts(backup);
    if |parts| != 3 || parts[0] != V2 then Err(InvalidBackup) else
    var licenseBackup := DecodePart(codec, parts[1]);
    var seedBackup := DecodePart(codec, parts[2]);
    if licenseBackup.None? || seedBackup.None? then Err(InvalidBackup) else
    var license := OpenEnvelope(codec, licenseBackup.value, password);
    if license.Err? then Err(license.error) else
    var seed := OpenEnvelope(codec, seedBackup.value, password);
    if seed.Err? then Err(seed.error) else
    OpenedSize(codec, seedBackup.value, password);
    Assemble2(codec, license.value, seed.value)
  }

  function RestoreV1(codec: Codec, backup: string, password: string): Result<Material>
  {
    match OpenEnvelope(codec, backup, password)
    case Err(e) => Err(e)
    case Ok(key) => Ok(Material(key, "", "", ""))
  }

  /** `restoreGeneratorBackupMaterial`: the prefix picks the format. */
  function Restore(codec: Codec, backup: string, password: string): Result<Material>
  {
    if V3 + "." <= backup then RestoreV3(codec, backup, password)
    else if V2 + "." <= backup then RestoreV2(codec, backup, password)
    else RestoreV1(codec, backup, password)
  }

  ghost predicate Zeroed(a: array<char>)
    reads a
  {
    forall i | 0 <= i < a.Length :: a[i] == '\0'
  }

  /** `wipeBytes`. */
  method Wipe(a: array<char>)
    modifies a
    ensures Zeroed(a)
  {
    for i := 0 to a.Length
      invariant forall j | 0 <= j < i :: a[j] == '\0'
    {
      a[i] := '\0';
    }
  }

  /** `RestorePrivateKey` into a buffer of its own, empty on error. */
  method OpenKey(codec: Codec, backup: string, password: string) returns (error: Option<Error>, key: array<char>)
    ensures fresh(key)
    ensures var outcome := OpenEnvelope(codec, backup, password);
            if outcome.Ok? then error == None && key[..] == outcome.value
            else error == Some(outcome.error) && key.Length == 0
  {
    hide OpenEnvelope;
    var outcome := OpenEnvelope(codec, backup, password);
    var plaintext := if outcome.Ok? then outcome.value else "";
    key := new char[|plaintext|](i requires 0 <= i < |plaintext| => plaintext[i]);
    error := if outcome.Err? then Some(outcome.error) else None;
  }

  /** The end of the restore: copy the seed key, compare and validate, and wipe what is not handed over. */
  method AdoptKeys(codec: Codec, license: array<char>, seed: array<char>, revocation: array<char>)
    returns (r: Result<Material>, seedKey: array<char>)
    requires seed.Length == KEY_SIZE && license != seed && revocation != seed && license != revocation
    modifies license, seed, revocation
    ensures r == Assemble3(codec, old(license[..]), old(seed[..]), old(revocation[..]))
    ensures Zeroed(seed)
    ensures r.Ok? ==>
      license[..] == r.value.license && seedKey[..] == r.value.seedKey && revocation[..] == r.value.revocation
    ensures r.Err? ==> Zeroed(license) && Zeroed(seedKey) && Zeroed(revocation)
  {
    hide HexEncode, ValidKey, ValidSeed, Binding3;
    var material := seed[..];
    seedKey := new char[SEED_SIZE](i requires 0 <= i < SEED_SIZE => material[ID_SIZE + i]);
    r := Assemble3(codec, license[..], material, revocation[..]);
    Wipe(seed);
    if r.Err? {
      Wipe(seedKey);
      Wipe(license);
      Wipe(revocation);
    }
  }

  /**
   `restoreGeneratorBackupMaterial` on its buffers. The decrypted seed material is zeroed in any case; the two private
   keys and the copied seed key are handed over as decrypted on success and zeroed on every error.
   */
  method RestoreBackupV3(codec: Codec, backup: string, password: string)
    returns (r: Result<Material>, license: array<char>, seed: array<char>, seedKey: array<char>,
             revocation: array<char>)
    ensures r == RestoreV3(codec, backup, password)
    ensures Zeroed(seed)
    ensures r.Ok? ==>
      license[..] == r.value.license && seedKey[..] == r.value.seedKey && revocation[..] == r.value.revocation
    ensures r.Err? ==> Zeroed(license) && Zeroed(seedKey) && Zeroed(revocation)
  {
    hide OpenEnvelope, DecodePart, Parts, Assemble3;
    license, seed, seedKey, revocation := new char[0], new char[0], new char[0], new char[0];
    var parts := Parts(backup);
    if |parts| != 4 || parts[0] != V3 { r := Err(InvalidBackup); return; }
    var licenseBackup := DecodePart(codec, parts[1]);
    var seedBackup := DecodePart(codec, parts[2]);
    var revocationBackup := DecodePart(codec, parts[3]);
    if licenseBackup.None? || seedBackup.None? || revocationBackup.None? { r := Err(InvalidBackup); return; }
    var error;
    error, license := OpenKey(codec, licenseBackup.value, password);
    if error.Some? { r := Err(error.value); return; }
    error, seed := OpenKey(codec, seedBackup.value, password);
    if error.Some? {
      Wipe(license);
      r := Err(error.value);
      return;
    }
    error, revocation := OpenKey(codec, revocationBackup.value, password);
    if error.Some? {
      Wipe(license);
      Wipe(seed);
      r := Err(error.value);
      return;
    }
    OpenedSize(codec, seedBackup.value, password);
    r, seedKey := AdoptKeys(codec, license, seed, revocation);
  }

  /** `createGeneratorBackup` over its scratch buffer. */
  method CreateBackupV2(codec: Codec, m: Material, password: string, license: Draw, seed: Draw, scratch: array<char>)
    returns (r: Result<string>)
    requires Sound(codec) && scratch.Length == KEY_SIZE && Zeroed(scratch)
    modifies scratch
    ensures r == CreateV2(codec, m, password, license, seed)
    ensures Zeroed(scratch)
  {
    hide Envelope, Dotted, HexDecode, LowerHex;
    if !ValidSeed(m.seedID, m.seedKey) { return Err(Initialization); }
    var licenseBackup := Envelope(codec, m.license, password, license);
    if licenseBackup.Err? { return licenseBackup; }
    var id := HexDecode(m.seedID);
    if id.None? || |id.value| != ID_SIZE { return Err(Initialization); }
    CopyInto(scratch, 0, id.value);
    CopyInto(scratch, ID_SIZE, m.seedKey);
    var binding := Binding2(codec, m.license, id.value, m.seedKey);
    CopyInto(scratch, ID_SIZE + SEED_SIZE, binding);
    assert scratch[..] == id.value + m.seedKey + binding;
    var seedBackup := Envelope(codec, scratch[..], password, seed);
    Wipe(scratch);
    if seedBackup.Err? { return seedBackup; }
    r := Ok(Dotted([V2, codec.encode(licenseBackup.value), codec.encode(seedBackup.value)]));
  }

  /** `restoreGeneratorBackup` on its buffers, for a text of the second format. */
  method RestoreBackupV2(codec: Codec, backup: string, password: string)
    returns (r: Result<Material>, license: array<char>, seed: array<char>, seedKey: array<char>)
    ensures r == RestoreV2(codec, backup, password)
    ensures Zeroed(seed)
    ensures r.Ok? ==> license[..] == r.value.license && seedKey[..] == r.value.seedKey
    ensures r.Err? ==> Zeroed(license) && Zeroed(seedKey)
  {
    hide OpenEnvelope, DecodePart, Parts, Assemble2;
    license, seed, seedKey := new char[0], new char[0], new char[0];
    var parts := Parts(backup);
    if |parts| != 3 || parts[0] != V2 { r := Err(InvalidBackup); return; }
    var licenseBackup := DecodePart(codec, parts[1]);
    var seedBackup := DecodePart(codec, parts[2]);
    if licenseBackup.None? || seedBackup.None? { r := Err(InvalidBackup); return; }
    var error;
    error, license := OpenKey(codec, licenseBackup.value, password);
    if error.Some? { r := Err(error.value); return; }
    error, seed := OpenKey(codec, seedBackup.value, password);
    if error.Some? {
      Wipe(license);
      r := Err(error.value);
      return;
    }
    OpenedSize(codec, seedBackup.value, password);
    r, seedKey := AdoptKey(codec, license, seed);
  }

  /** The end of the second format's restore. */
  method AdoptKey(codec: Codec, license: array<char>, seed: array<char>)
    returns (r: Result<Material>, seedKey: array<char>)
    requires seed.Length == KEY_SIZE && license != seed
    modifies license, seed
    ensures r == Assemble2(codec, old(license[..]), old(seed[..]))
    ensures Zeroed(seed)
    ensures r.Ok? ==> license[..] == r.value.license && seedKey[..] == r.value.seedKey
    ensures r.Err? ==> Zeroed(license) && Zeroed(seedKey)
  {
    hide HexEncode, ValidSeed, Binding2;
    var material := seed[..];
    seedKey := new char[SEED_SIZE](i requires 0 <= i < SEED_SIZE => material[ID_SIZE + i]);
    r := Assemble2(codec, license[..], material);
    Wipe(seed);
    if r.Err? {
      Wipe(license);
      Wipe(seedKey);
    }
  }

  // ----- Dispatch -----

  /** Whatever the text, only its own format can accept it, and what comes back has the shape of that format. */
  lemma DispatchExact(codec: Codec, backup: string, password: string)
    ensures V3 + "." <= backup <==> Parts(backup)[0] == V3 && |Parts(backup)| > 1
    ensures V2 + "." <= backup <==> Parts(backup)[0] == V2 && |Parts(backup)| > 1
    ensures RestoreV1(codec, backup, password).Ok? ==>
      Restore(codec, backup, password) == RestoreV1(codec, backup, password)
    ensures RestoreV2(codec, backup, password).Ok? ==>
      Restore(codec, backup, password) == RestoreV2(codec, backup, password)
    ensures RestoreV3(codec, backup, password).Ok? ==>
      Restore(codec, backup, password) == RestoreV3(codec, backup, password)
    ensures var r := Restore(codec, backup, password);
            r.Ok? ==>
              && (V3 + "." <= backup ==> ValidMaterial(codec, r.value))
              && (!(V3 + "." <= backup) ==> r.value.revocation == "")
              && (V2 + "." <= backup ==> ValidSeed(r.value.seedID, r.value.seedKey))
              && (Parts(backup)[0] == V1 ==> r.value.seedID == "" && r.value.seedKey == "")
  {
    NoDot();
    FirstOf(backup, V3);
    FirstOf(backup, V2);
    hide Parts, DecodePart, OpenEnvelope, HexEncode, Binding2, Binding3, ValidKey, ValidSeed;
    assert V1 != V2 && V2 != V3 && V1 != V3 by { Formats(); }
  }

  lemma Formats()
    ensures V1[12] == '1' && V2[12] == '2' && V3[12] == '3'
  {
  }

  // ----- What is accepted -----

  lemma DecodedPart(codec: Codec, value: string)
    ensures var r := DecodePart(codec, value); r.Some? ==> r.value != "" && codec.encode(r.value) == value
  {
  }

  /** A third-format text with these envelopes inside, one of which holds identifier, seed key and binding. */
  predicate Holds3(codec: Codec, text: string, password: string, m: Material, a: string, b: string, c: string,
                   id: string)
  {
    && text == Dotted(["TCPKEYBACKUP3", codec.encode(a), codec.encode(b), codec.encode(c)])
    && OpenEnvelope(codec, a, password) == Ok(m.license) && OpenEnvelope(codec, c, password) == Ok(m.revocation)
    && OpenEnvelope(codec, b, password)
       == Ok(id + m.seedKey + codec.digest("TCPKEYBACKUP3" + m.license + id + m.seedKey + m.revocation))
    && |id| == 16 && |m.seedKey| == 32 && m.seedID == HexEncode(id)
    && codec.derives(m.license) && codec.derives(m.revocation)
  }

  /** Exactly which texts of the third format are accepted, and as what. */
  lemma AcceptedV3(codec: Codec, text: string, password: string, m: Material)
    requires Sound(codec)
    ensures RestoreV3(codec, text, password) == Ok(m) <==>
            exists a, b, c, id :: Holds3(codec, text, password, m, a, b, c, id)
  {
    hide Parts, Dotted, DecodePart, OpenEnvelope, HexEncode, LowerHex;
    var parts := Parts(text);
    PartsDotted(text);
    if RestoreV3(codec, text, password) == Ok(m) {
      DecodedPart(codec, parts[1]);
      DecodedPart(codec, parts[2]);
      DecodedPart(codec, parts[3]);
      var a, b := DecodePart(codec, parts[1]).value, DecodePart(codec, parts[2]).value;
      var c := DecodePart(codec, parts[3]).value;
      assert parts == ["TCPKEYBACKUP3", codec.encode(a), codec.encode(b), codec.encode(c)];
      OpenedSize(codec, b, password);
      var seed := OpenEnvelope(codec, b, password).value;
      Assembled3(codec, m.license, seed, m.revocation, m);
      assert Holds3(codec, text, password, m, a, b, c, seed[..ID_SIZE]);
    }
    if a, b, c, id :| Holds3(codec, text, password, m, a, b, c, id) {
      NoDot();
      DottedParts(["TCPKEYBACKUP3", codec.encode(a), codec.encode(b), codec.encode(c)]);
      NeverEmpty(codec, a, password);
      NeverEmpty(codec, b, password);
      NeverEmpty(codec, c, password);
      DecodePartEncoded(codec, a);
      DecodePartEncoded(codec, b);
      DecodePartEncoded(codec, c);
      OpenedSize(codec, a, password);
      OpenedSize(codec, c, password);
      OpenedSize(codec, b, password);
      Assembled3(codec, m.license, OpenEnvelope(codec, b, password).value, m.revocation, m);
      SeedParts(id, m.seedKey, codec.digest("TCPKEYBACKUP3" + m.license + id + m.seedKey + m.revocation));
    }
  }

  lemma NeverEmpty(codec: Codec, text: string, password: string)
    ensures OpenEnvelope(codec, text, password).Ok? ==> text != ""
  {
    hide DecodeSized;
  }

  lemma SeedParts(id: string, key: string, binding: string)
    requires |id| == ID_SIZE && |key| == SEED_SIZE
    ensures var seed := id + key + binding;
            seed[..ID_SIZE] == id && seed[ID_SIZE..ID_SIZE + SEED_SIZE] == key && seed[ID_SIZE + SEED_SIZE..] == binding
  {
  }

  lemma Assembled3(codec: Codec, license: string, seed: string, revocation: string, m: Material)
    requires |seed| == KEY_SIZE
    ensures Assemble3(codec, license, seed, revocation) == Ok(m) <==>
            var id := seed[..ID_SIZE];
            && m == Material(license, HexEncode(id), seed[ID_SIZE..ID_SIZE + SEED_SIZE], revocation)
            && |license| == KEY_SIZE && |revocation| == KEY_SIZE && codec.derives(license) && codec.derives(revocation)
            && seed == id + m.seedKey + codec.digest("TCPKEYBACKUP3" + license + id + m.seedKey + revocation)
  {
    var id, key, binding := seed[..ID_SIZE], seed[ID_SIZE..ID_SIZE + SEED_SIZE], seed[ID_SIZE + SEED_SIZE..];
    HexInverse(id);
    hide HexEncode, LowerHex;
    assert seed == id + key + binding;
    forall t ensures id + key + t == seed <==> t == binding {
      assert (id + key + t)[ID_SIZE + SEED_SIZE..] == t;
    }
  }

  /** The same for the second format, which does not ask whether the license key is derived from its seed. */
  predicate Holds2(codec: Codec, text: string, password: string, m: Material, a: string, b: string, id: string)
  {
    && text == Dotted(["TCPKEYBACKUP2", codec.encode(a), codec.encode(b)])
    && OpenEnvelope(codec, a, password) == Ok(m.license) && m.revocation == ""
    && OpenEnvelope(codec, b, password)
       == Ok(id + m.seedKey + codec.digest("TCPKEYBACKUP2" + m.license + id + m.seedKey))
    && |id| == 16 && |m.seedKey| == 32 && m.seedID == HexEncode(id)
  }

  lemma Assembled2(codec: Codec, license: string, seed: string, m: Material)
    requires |seed| == KEY_SIZE
    ensures Assemble2(codec, license, seed) == Ok(m) <==>
            var id := seed[..ID_SIZE];
            && m == Material(license, HexEncode(id), seed[ID_SIZE..ID_SIZE + SEED_SIZE], "")
            && seed == id + m.seedKey + codec.digest("TCPKEYBACKUP2" + license + id + m.seedKey)
  {
    var id, key, binding := seed[..ID_SIZE], seed[ID_SIZE..ID_SIZE + SEED_SIZE], seed[ID_SIZE + SEED_SIZE..];
    HexInverse(id);
    hide HexEncode, LowerHex;
    assert seed == id + key + binding;
    assert "TCPKEYBACKUP2" + license + id + key + "" == "TCPKEYBACKUP2" + license + id + key;
    forall t ensures id + key + t == seed <==> t == binding {
      assert (id + key + t)[ID_SIZE + SEED_SIZE..] == t;
    }
  }

  /** Exactly which texts of the second format are accepted, and as what. */
  lemma AcceptedV2(codec: Codec, text: string, password: string, m: Material)
    requires Sound(codec)
    ensures RestoreV2(codec, text, password) == Ok(m) <==> exists a, b, id :: Holds2(codec, text, password, m, a, b, id)
  {
    hide Parts, Dotted, DecodePart, OpenEnvelope, HexEncode, LowerHex;
    var parts := Parts(text);
    PartsDotted(text);
    if RestoreV2(codec, text, password) == Ok(m) {
      DecodedPart(codec, parts[1]);
      DecodedPart(codec, parts[2]);
      var a, b := DecodePart(codec, parts[1]).value, DecodePart(codec, parts[2]).value;
      assert parts == ["TCPKEYBACKUP2", codec.encode(a), codec.encode(b)];
      OpenedSize(codec, b, password);
      var seed := OpenEnvelope(codec, b, password).value;
      Assembled2(codec, m.license, seed, m);
      assert Holds2(codec, text, password, m, a, b, seed[..ID_SIZE]);
    }
    if a, b, id :| Holds2(codec, text, password, m, a, b, id) {
      NoDot();
      DottedParts(["TCPKEYBACKUP2", codec.encode(a), codec.encode(b)]);
      NeverEmpty(codec, a, password);
      NeverEmpty(codec, b, password);
      DecodePartEncoded(codec, a);
      DecodePartEncoded(codec, b);
      OpenedSize(codec, b, password);
      Assembled2(codec, m.license, OpenEnvelope(codec, b, password).value, m);
      SeedParts(id, m.seedKey, codec.digest("TCPKEYBACKUP2" + m.license + id + m.seedKey));
    }
  }

  /** A restore fails for one of two reasons, and only an empty password is named. */
  lemma RestoreErrors(codec: Codec, text: string, password: string)
    requires Sound(codec)
    ensures var r := Restore(codec, text, password);
            r.Err? ==> r.error == InvalidBackup || (r.error == PasswordRequired && |password| == 0)
  {
    forall t
      ensures OpenEnvelope(codec, t, password).Err? ==>
        OpenEnvelope(codec, t, password).error == if |password| == 0 then PasswordRequired else InvalidBackup
    { OpenExact(codec, t, password, ""); }
    hide OpenEnvelope, Parts, DecodePart, HexEncode, ValidKey, ValidSeed, Binding2, Binding3;
  }

  // ----- Round trips -----

  /** Three keys in envelopes under one password, as every text of the third format holds them. */
  function Written3(codec: Codec, license: string, seed: string, revocation: string): string
  {
    Dotted([V3, codec.encode(license), codec.encode(seed), codec.encode(revocation)])
  }

  lemma DecodePartEncoded(codec: Codec, b: string)
    requires Sound(codec) && b != ""
    ensures DecodePart(codec, codec.encode(b)) == Some(b)
  {
  }

  lemma NotEmpty(text: string, head: string)
    requires head + "." <= text
    ensures text != ""
  {
  }

  lemma RestoreWritten3(codec: Codec, a: string, b: string, c: string, password: string, x: Draw, y: Draw, z: Draw)
    requires Sound(codec) && ValidDraw(x) && ValidDraw(y) && ValidDraw(z)
    requires |a| == KEY_SIZE && |b| == KEY_SIZE && |c| == KEY_SIZE && |password| >= PASSWORD_MINIMUM
    ensures Envelope(codec, a, password, x).Ok? && Envelope(codec, b, password, y).Ok?
            && Envelope(codec, c, password, z).Ok?
    ensures var text := Written3(codec, Envelope(codec, a, password, x).value,
                                 Envelope(codec, b, password, y).value, Envelope(codec, c, password, z).value);
            Restore(codec, text, password) == Assemble3(codec, a, b, c)
  {
    EnvelopeRoundTrip(codec, a, password, x);
    EnvelopeRoundTrip(codec, b, password, y);
    EnvelopeRoundTrip(codec, c, password, z);
    hide Parts, Dotted, DecodePart, OpenEnvelope, Envelope, Assemble3;
    var ea, eb, ec := Envelope(codec, a, password, x).value, Envelope(codec, b, password, y).value,
      Envelope(codec, c, password, z).value;
    NotEmpty(ea, V1);
    NotEmpty(eb, V1);
    NotEmpty(ec, V1);
    DecodePartEncoded(codec, ea);
    DecodePartEncoded(codec, eb);
    DecodePartEncoded(codec, ec);
    NoDot();
    var text := Written3(codec, ea, eb, ec);
    DottedParts([V3, codec.encode(ea), codec.encode(eb), codec.encode(ec)]);
    FirstOf(text, V3);
  }

  /** The middle envelope's plaintext: identifier, seed key, binding. */
  function SeedOf(codec: Codec, m: Material): string
    requires HexDecode(m.seedID).Some?
  {
    var id := HexDecode(m.seedID).value;
    id + m.seedKey + Binding3(codec, m.license, id, m.seedKey, m.revocation)
  }

  lemma SeedFields(codec: Codec, m: Material)
    requires Sound(codec) && ValidSeed(m.seedID, m.seedKey)
    ensures HexDecode(m.seedID).Some? && |HexDecode(m.seedID).value| == ID_SIZE
    ensures |SeedOf(codec, m)| == KEY_SIZE
    ensures SeedOf(codec, m)[..ID_SIZE] == HexDecode(m.seedID).value
    ensures SeedOf(codec, m)[ID_SIZE..ID_SIZE + SEED_SIZE] == m.seedKey
    ensures HexEncode(SeedOf(codec, m)[..ID_SIZE]) == m.seedID
    ensures SeedOf(codec, m)[ID_SIZE + SEED_SIZE..]
            == Binding3(codec, m.license, HexDecode(m.seedID).value, m.seedKey, m.revocation)
  {
    HexRoundTrip(m.seedID);
    hide HexDecode, HexEncode;
  }

  /** What was packed in the third format comes back, all of it, and creation refuses only what it must. */
  lemma RoundTripV3(codec: Codec, m: Material, password: string, x: Draw, y: Draw, z: Draw)
    requires Sound(codec) && ValidDraw(x) && ValidDraw(y) && ValidDraw(z)
    ensures var r := CreateV3(codec, m, password, x, y, z);
            && (r.Ok? <==>
                  && |m.license| == 64 && codec.derives(m.license)
                  && |m.revocation| == 64 && codec.derives(m.revocation)
                  && |m.seedID| == 32 && LowerHex(m.seedID) && |m.seedKey| == 32 && |password| >= 12)
            && (r.Ok? ==> Restore(codec, r.value, password) == Ok(m))
  {
    hide Envelope, Restore, Dotted, HexDecode, HexEncode, LowerHex, Binding3;
    if ValidMaterial(codec, m) {
      SeedFields(codec, m);
      EnvelopeRoundTrip(codec, m.license, password, x);
      EnvelopeRoundTrip(codec, m.revocation, password, z);
      EnvelopeRoundTrip(codec, SeedOf(codec, m), password, y);
      if |password| >= PASSWORD_MINIMUM {
        RestoreWritten3(codec, m.license, SeedOf(codec, m), m.revocation, password, x, y, z);
      }
    }
  }

  /** Which error a refused creation gets: first the material is judged, then the key's size, then the password. */
  lemma CreateErrors(codec: Codec, m: Material, password: string, x: Draw, y: Draw, z: Draw)
    requires Sound(codec) && ValidDraw(x) && ValidDraw(y) && ValidDraw(z)
    ensures var r := CreateV3(codec, m, password, x, y, z);
            r.Err? ==> r.error == if !ValidMaterial(codec, m) then Initialization
                                  else if |password| == 0 then PasswordRequired else PasswordTooShort
    ensures var r := CreateV2(codec, m, password, x, y);
            r.Err? ==> r.error == if !ValidSeed(m.seedID, m.seedKey) then Initialization
                                  else if |m.license| != 64 then InvalidPrivateKey
                                  else if |password| == 0 then PasswordRequired else PasswordTooShort
  {
    RoundTripV3(codec, m, password, x, y, z);
    RoundTripV2(codec, m, password, x, y);
    EnvelopeErrors(codec, m.license, password, x);
    hide Envelope, Restore, Dotted, HexDecode, HexEncode, LowerHex, Binding2, Binding3, Sound;
    if ValidMaterial(codec, m) { HexRoundTrip(m.seedID); }
    if ValidSeed(m.seedID, m.seedKey) { HexRoundTrip(m.seedID); }
  }

  /**
   Envelopes taken from three backups under one password: the splice is accepted exactly when the binding in the
   middle one is the binding of what was put around it.
   */
  lemma SpliceExact(codec: Codec, a: Material, b: Material, c: Material, password: string, x: Draw, y: Draw, z: Draw)
    requires Sound(codec) && ValidDraw(x) && ValidDraw(y) && ValidDraw(z) && |password| >= PASSWORD_MINIMUM
    requires ValidMaterial(codec, a) && ValidMaterial(codec, b) && ValidMaterial(codec, c)
    ensures HexDecode(b.seedID).Some? && |SeedOf(codec, b)| == KEY_SIZE
    ensures Envelope(codec, a.license, password, x).Ok? && Envelope(codec, SeedOf(codec, b), password, y).Ok?
            && Envelope(codec, c.revocation, password, z).Ok?
    ensures var text := Written3(codec, Envelope(codec, a.license, password, x).value,
                                 Envelope(codec, SeedOf(codec, b), password, y).value,
                                 Envelope(codec, c.revocation, password, z).value);
            var id := HexDecode(b.seedID).value;
            var r := Restore(codec, text, password);
            && (r.Ok? <==> Binding3(codec, a.license, id, b.seedKey, c.revocation)
                           == Binding3(codec, b.license, id, b.seedKey, b.revocation))
            && (r.Ok? ==> r.value == Material(a.license, b.seedID, b.seedKey, c.revocation))
  {
    hide Restore, Dotted, HexDecode, HexEncode, LowerHex, Binding3, Written3, Envelope;
    SeedFields(codec, b);
    RestoreWritten3(codec, a.license, SeedOf(codec, b), c.revocation, password, x, y, z);
  }

  lemma BoundInjective(la: string, lb: string, id: string, key: string, ra: string, rb: string)
    requires |la| == |lb| && |ra| == |rb|
    requires Bound(V3, la, id, key, ra) == Bound(V3, lb, id, key, rb)
    ensures la == lb && ra == rb
  {
    var s, t := Bound(V3, la, id, key, ra), Bound(V3, lb, id, key, rb);
    var n := |V3|;
    assert s[n..n + |la|] == la && t[n..n + |la|] == lb;
    assert s[|s| - |ra|..] == ra && t[|s| - |ra|..] == rb;
  }

  /** The digest does not collide on these two inputs. */
  ghost predicate TellsApart(codec: Codec, s: string, t: string)
  {
    codec.digest(s) == codec.digest(t) ==> s == t
  }

  /** If the digest tells the two bindings apart, a splice is accepted only when nothing was exchanged. */
  lemma SpliceRejected(codec: Codec, a: Material, b: Material, c: Material, password: string, x: Draw, y: Draw, z: Draw)
    requires Sound(codec) && ValidDraw(x) && ValidDraw(y) && ValidDraw(z) && |password| >= PASSWORD_MINIMUM
    requires ValidMaterial(codec, a) && ValidMaterial(codec, b) && ValidMaterial(codec, c)
    ensures HexDecode(b.seedID).Some? && |SeedOf(codec, b)| == KEY_SIZE
    ensures Envelope(codec, a.license, password, x).Ok? && Envelope(codec, SeedOf(codec, b), password, y).Ok?
            && Envelope(codec, c.revocation, password, z).Ok?
    ensures var text := Written3(codec, Envelope(codec, a.license, password, x).value,
                                 Envelope(codec, SeedOf(codec, b), password, y).value,
                                 Envelope(codec, c.revocation, password, z).value);
            var id := HexDecode(b.seedID).value;
            TellsApart(codec, Bound(V3, a.license, id, b.seedKey, c.revocation),
                       Bound(V3, b.license, id, b.seedKey, b.revocation))
            ==> (Restore(codec, text, password).Ok? <==> a.license == b.license && c.revocation == b.revocation)
  {
    hide Restore, Dotted, HexDecode, HexEncode, LowerHex, Written3, Envelope, Bound, Sound, SeedOf;
    SpliceExact(codec, a, b, c, password, x, y, z);
    var id := HexDecode(b.seedID).value;
    if Bound(V3, a.license, id, b.seedKey, c.revocation) == Bound(V3, b.license, id, b.seedKey, b.revocation) {
      BoundInjective(a.license, b.license, id, b.seedKey, c.revocation, b.revocation);
    }
  }

  /** The second format returns its two parts and never a revocation key. */
  lemma RoundTripV2(codec: Codec, m: Material, password: string, x: Draw, y: Draw)
    requires Sound(codec) && ValidDraw(x) && ValidDraw(y)
    ensures var r := CreateV2(codec, m, password, x, y);
            && (r.Ok? <==>
                  |m.seedID| == 32 && LowerHex(m.seedID) && |m.seedKey| == 32 && |m.license| == 64 && |password| >= 12)
            && (r.Ok? ==> Restore(codec, r.value, password) == Ok(m.(revocation := "")))
  {
    hide Parts, Dotted, DecodePart, OpenEnvelope, Envelope, HexDecode, HexEncode, LowerHex, Binding2;
    EnvelopeRoundTrip(codec, m.license, password, x);
    if ValidSeed(m.seedID, m.seedKey) {
      HexRoundTrip(m.seedID);
      var id := HexDecode(m.seedID).value;
      var seed := id + m.seedKey + Binding2(codec, m.license, id, m.seedKey);
      DigestSize(codec, m.license, id, m.seedKey);
      EnvelopeRoundTrip(codec, seed, password, y);
      assert seed[..ID_SIZE] == id && seed[ID_SIZE..ID_SIZE + SEED_SIZE] == m.seedKey;
      if CreateV2(codec, m, password, x, y).Ok? {
        var ea, eb := Envelope(codec, m.license, password, x).value, Envelope(codec, seed, password, y).value;
        RestoreWritten2(codec, ea, eb, m.license, seed, password);
      }
    }
  }

  lemma DigestSize(codec: Codec, license: string, id: string, seedKey: string)
    requires Sound(codec)
    ensures |Binding2(codec, license, id, seedKey)| == BINDING_SIZE
  {
  }

  lemma RestoreWritten2(codec: Codec, ea: string, eb: string, a: string, b: string, password: string)
    requires Sound(codec) && V1 + "." <= ea && V1 + "." <= eb && |b| == KEY_SIZE
    requires OpenEnvelope(codec, ea, password) == Ok(a) && OpenEnvelope(codec, eb, password) == Ok(b)
    ensures Restore(codec, Dotted([V2, codec.encode(ea), codec.encode(eb)]), password) == Assemble2(codec, a, b)
  {
    hide Parts, Dotted, DecodePart, OpenEnvelope, Envelope, Assemble2;
    NotEmpty(ea, V1);
    NotEmpty(eb, V1);
    DecodePartEncoded(codec, ea);
    DecodePartEncoded(codec, eb);
    NoDot();
    var text := Dotted([V2, codec.encode(ea), codec.encode(eb)]);
    DottedParts([V2, codec.encode(ea), codec.encode(eb)]);
    FirstOf(text, V2);
    FirstOf(text, V3);
  }

  /** Under one password, the license envelope of one backup beside the seed envelope of another. */
  function Spliced2(codec: Codec, a: Material, b: Material, password: string, x: Draw, y: Draw): Result<string>
    requires HexDecode(b.seedID).Some?
  {
    var id := HexDecode(b.seedID).value;
    var first := Envelope(codec, a.license, password, x);
    var second := Envelope(codec, id + b.seedKey + Binding2(codec, b.license, id, b.seedKey), password, y);
    if first.Err? then first else if second.Err? then second else
    Ok(Dotted([V2, codec.encode(first.value), codec.encode(second.value)]))
  }

  /**
   In the second format too such a splice is accepted exactly when the binding in the seed envelope is the one of the
   license key beside it; unless the digest collides on the two inputs, that is the license key it was made with.
   */
  lemma SpliceV2(codec: Codec, a: Material, b: Material, password: string, x: Draw, y: Draw)
    requires Sound(codec) && ValidDraw(x) && ValidDraw(y) && |password| >= PASSWORD_MINIMUM
    requires |a.license| == KEY_SIZE && |b.license| == KEY_SIZE && ValidSeed(b.seedID, b.seedKey)
    ensures HexDecode(b.seedID).Some? && Spliced2(codec, a, b, password, x, y).Ok?
    ensures var id := HexDecode(b.seedID).value;
            var r := Restore(codec, Spliced2(codec, a, b, password, x, y).value, password);
            && (r.Ok? <==> codec.digest("TCPKEYBACKUP2" + a.license + id + b.seedKey)
                           == codec.digest("TCPKEYBACKUP2" + b.license + id + b.seedKey))
            && (r.Ok? ==> r.value == Material(a.license, b.seedID, b.seedKey, ""))
            && var apart := TellsApart(codec, "TCPKEYBACKUP2" + a.license + id + b.seedKey,
                                       "TCPKEYBACKUP2" + b.license + id + b.seedKey);
               (apart ==> (r.Ok? <==> a.license == b.license))
  {
    HexRoundTrip(b.seedID);
    var id := HexDecode(b.seedID).value;
    hide Parts, Dotted, DecodePart, OpenEnvelope, Envelope, HexDecode, HexEncode, LowerHex, Restore;
    var seed := id + b.seedKey + Binding2(codec, b.license, id, b.seedKey);
    DigestSize(codec, b.license, id, b.seedKey);
    EnvelopeRoundTrip(codec, a.license, password, x);
    EnvelopeRoundTrip(codec, seed, password, y);
    RestoreWritten2(codec, Envelope(codec, a.license, password, x).value, Envelope(codec, seed, password, y).value,
                    a.license, seed, password);
    SeedParts(id, b.seedKey, Binding2(codec, b.license, id, b.seedKey));
    BoundPlain(a.license, id, b.seedKey);
    BoundPlain(b.license, id, b.seedKey);
    LicenseBound(a.license, b.license, id, b.seedKey);
  }

  lemma BoundPlain(license: string, id: string, key: string)
    ensures Bound(V2, license, id, key, "") == "TCPKEYBACKUP2" + license + id + key
  {
  }

  lemma LicenseBound(a: string, b: string, id: string, key: string)
    requires |a| == |b|
    ensures "TCPKEYBACKUP2" + a + id + key == "TCPKEYBACKUP2" + b + id + key ==> a == b
  {
    var s, t, n := "TCPKEYBACKUP2" + a + id + key, "TCPKEYBACKUP2" + b + id + key, |"TCPKEYBACKUP2"|;
    assert s[n..n + |a|] == a && t[n..n + |b|] == b;
  }

  /** A single envelope is restored as one key and nothing else. */
  lemma RoundTripV1(codec: Codec, key: string, password: string, draw: Draw)
    requires Sound(codec) && ValidDraw(draw)
    ensures var r := Envelope(codec, key, password, draw);
            r.Ok? ==> Restore(codec, r.value, password) == Ok(Material(key, "", "", ""))
  {
    EnvelopeRoundTrip(codec, key, password, draw);
    hide Envelope, OpenEnvelope;
    var r := Envelope(codec, key, password, draw);
    if r.Ok? { DispatchExact(codec, r.value, password); }
  }
}
