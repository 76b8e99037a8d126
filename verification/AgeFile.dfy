/**
 csharp/SopsEncrypt.cs, AgeFile.EncryptArmored: the writer of an age-encryption.org/v1 file for
 one X25519 recipient, and the reader that the format asks for. Cryptographic primitives are
 parameters of which only the algebra that makes decryption possible is used.
 */
module AgeFile {
  import opened Wrappers
  import opened BitStrings
  import opened LineWrap
  import opened Base64

  type Bytes = seq<Byte>

  datatype Primitives = Primitives(
    scalarMultBase: Bytes -> Bytes,
    scalarMult: (Bytes, Bytes) -> Bytes,
    hkdf: (Bytes, Bytes, string, nat) -> Bytes,
    hmac: (Bytes, Bytes) -> Bytes,
    seal: (Bytes, Bytes, Bytes) -> Bytes,
    open: (Bytes, Bytes, Bytes) -> Option<Bytes>)

  /** X25519 is a commuting exchange of 32-byte points; opening undoes sealing, which adds a 16-byte tag. */
  ghost predicate Lawful(p: Primitives) {
    && (forall a: Bytes, b: Bytes :: p.scalarMult(a, p.scalarMultBase(b)) == p.scalarMult(b, p.scalarMultBase(a)))
    && (forall a: Bytes :: |p.scalarMultBase(a)| == 32)
    && (forall k: Bytes, n: Bytes, m: Bytes :: p.open(k, n, p.seal(k, n, m)) == Some(m))
    && (forall k: Bytes, n: Bytes, m: Bytes :: |p.seal(k, n, m)| == |m| + TAG)
  }

  const TAG := 16
  const X25519_LABEL := "age-encryption.org/v1/X25519"
  const INTRO := "age-encryption.org/v1\n"
  const STANZA := "-> X25519 "
  const ARMOR_BEGIN := "-----BEGIN AGE ENCRYPTED FILE-----\n"
  const ARMOR_END := "-----END AGE ENCRYPTED FILE-----\n"
  const STREAM_NONCE_SIZE := 16

  function Zero(n: nat): (z: Bytes)
    ensures |z| == n
  {
    seq(n, _ => 0)
  }

  /** The STREAM nonce of chunk number i: an 11-byte big-endian counter and the last-chunk flag. */
  function ChunkNonce(i: nat, last: bool): Bytes
  {
    Counter(i, 11) + [if last then 1 else 0]
  }

  function Counter(i: nat, width: nat): Bytes
  {
    if width == 0 then [] else Counter(i / 256, width - 1) + [i % 256]
  }

  // Bytes and characters.

  predicate AsciiText(s: string) {
    forall i :: 0 <= i < |s| ==> s[i] as int < 128
  }

  function AsciiBytes(s: string): (b: Bytes)
    requires AsciiText(s)
    ensures |b| == |s|
  {
    seq(|s|, i requires 0 <= i < |s| => s[i] as int)
  }

  function Latin(b: Bytes): (s: string)
    ensures |s| == |b|
  {
    seq(|b|, i requires 0 <= i < |b| => b[i] as char)
  }

  lemma LatinOfAscii(s: string, b: Bytes)
    requires AsciiText(s)
    ensures Latin(AsciiBytes(s) + b) == s + Latin(b)
  {}

  // The writer.

  function WrappingKey(p: Primitives, shared: Bytes, ephemeralPublic: Bytes, recipient: Bytes): Bytes
  {
    p.hkdf(shared, ephemeralPublic + recipient, X25519_LABEL, 32)
  }

  function MacOf(p: Primitives, fileKey: Bytes, header: Bytes): Bytes
  {
    p.hmac(p.hkdf(fileKey, Zero(32), "header", 32), header)
  }

  function StreamKey(p: Primitives, fileKey: Bytes, nonce: Bytes): Bytes
  {
    p.hkdf(fileKey, nonce, "payload", 32)
  }

  /** The header up to and including the three dashes: what the MAC covers. */
  function HeaderText(ephemeralPublic: Bytes, wrappedKey: Bytes): string
  {
    INTRO + STANZA + Raw(ephemeralPublic) + "\n" + Wrapped(Raw(wrappedKey)) + "\n" + "---"
  }

  lemma HeaderAscii(ephemeralPublic: Bytes, wrappedKey: Bytes)
    ensures AsciiText(HeaderText(ephemeralPublic, wrappedKey))
  {
    hide AsciiText, Raw, Wrapped;
    RawAscii(ephemeralPublic);
    RawAscii(wrappedKey);
    WrappedAscii(Raw(wrappedKey));
    ConstantsAscii();
    var a := INTRO + STANZA + Raw(ephemeralPublic);
    AsciiAppend(INTRO + STANZA, Raw(ephemeralPublic));
    AsciiAppend(a, "\n");
    AsciiAppend(a + "\n", Wrapped(Raw(wrappedKey)));
    AsciiAppend(a + "\n" + Wrapped(Raw(wrappedKey)), "\n");
    AsciiAppend(a + "\n" + Wrapped(Raw(wrappedKey)) + "\n", "---");
  }

  lemma AsciiAppend(a: string, b: string)
    requires AsciiText(a) && AsciiText(b)
    ensures AsciiText(a + b)
  {}

  lemma ConstantsAscii()
    ensures AsciiText(INTRO + STANZA) && AsciiText("\n") && AsciiText("---") && AsciiText(" ")
  {}

  lemma RawAscii(b: Bytes)
    ensures AsciiText(Raw(b))
  {
    RawRoundTrip(b);
  }

  lemma {:induction false} WrappedAscii(s: string)
    requires AsciiText(s)
    ensures AsciiText(Wrapped(s))
    decreases |s|
  {
    if |s| >= LINE {
      assert forall i :: 0 <= i < |s| - LINE ==> s[LINE..][i] == s[LINE + i];
      WrappedAscii(s[LINE..]);
    }
  }

  datatype Header = Header(ephemeralPublic: Bytes, wrappedKey: Bytes, mac: Bytes)

  lemma FullHeaderAscii(h: Header)
    ensures AsciiText(HeaderText(h.ephemeralPublic, h.wrappedKey))
    ensures AsciiText(HeaderText(h.ephemeralPublic, h.wrappedKey) + " " + Raw(h.mac) + "\n")
  {
    hide AsciiText, Raw, HeaderText;
    var t := HeaderText(h.ephemeralPublic, h.wrappedKey);
    HeaderAscii(h.ephemeralPublic, h.wrappedKey);
    RawAscii(h.mac);
    ConstantsAscii();
    AsciiAppend(t, " ");
    AsciiAppend(t + " ", Raw(h.mac));
    AsciiAppend(t + " " + Raw(h.mac), "\n");
  }

  function FileBytes(h: Header, payload: Bytes): Bytes
  {
    FullHeaderAscii(h);
    AsciiBytes(HeaderText(h.ephemeralPublic, h.wrappedKey) + " " + Raw(h.mac) + "\n") + payload
  }

  function Armor(file: Bytes): string
  {
    ARMOR_BEGIN + ArmorBody(Padded(file)) + ARMOR_END
  }

  /** The header EncryptArmored writes for these random values. */
  function HeaderFor(p: Primitives, fileKey: Bytes, ephemeralPrivate: Bytes, recipient: Bytes): Header
  {
    var ephemeralPublic := p.scalarMultBase(ephemeralPrivate);
    var shared := p.scalarMult(ephemeralPrivate, recipient);
    var wrappedKey := p.seal(WrappingKey(p, shared, ephemeralPublic, recipient), Zero(12), fileKey);
    HeaderAscii(ephemeralPublic, wrappedKey);
    Header(ephemeralPublic, wrappedKey, MacOf(p, fileKey, AsciiBytes(HeaderText(ephemeralPublic, wrappedKey))))
  }

  function PayloadFor(p: Primitives, fileKey: Bytes, streamNonce: Bytes, dataKey: Bytes): Bytes
  {
    streamNonce + p.seal(StreamKey(p, fileKey, streamNonce), Zero(11) + [1], dataKey)
  }

  method EncryptArmored(p: Primitives, fileKey: Bytes, ephemeralPrivate: Bytes, streamNonce: Bytes,
                        dataKey: Bytes, recipient: Bytes)
    returns (armored: string)
    requires Lawful(p) && |recipient| == 32
    ensures armored == Armor(FileBytes(HeaderFor(p, fileKey, ephemeralPrivate, recipient),
                                       PayloadFor(p, fileKey, streamNonce, dataKey)))
  {
    hide Raw, Padded, Wrapped, AsciiBytes, Lawful;
    var ephemeralPublic := p.scalarMultBase(ephemeralPrivate);
    var sharedSecret := p.scalarMult(ephemeralPrivate, recipient);
    var salt := ephemeralPublic + recipient;
    var wrappingKey := p.hkdf(sharedSecret, salt, X25519_LABEL, 32);
    var wrappedFileKey := p.seal(wrappingKey, Zero(12), fileKey);

    var header := INTRO;
    header := header + STANZA + Raw(ephemeralPublic) + "\n";
    var wrapped, _ := WrapBase64(Raw(wrappedFileKey));
    header := header + wrapped;
    header := header + "\n";
    header := header + "---";
    assert header == HeaderText(ephemeralPublic, wrappedFileKey);
    HeaderAscii(ephemeralPublic, wrappedFileKey);

    var hmacKey := p.hkdf(fileKey, Zero(32), "header", 32);
    var mac := p.hmac(hmacKey, AsciiBytes(header));
    FullHeaderAscii(Header(ephemeralPublic, wrappedFileKey, mac));
    var fullHeader := header + " " + Raw(mac) + "\n";

    var streamKey := p.hkdf(fileKey, streamNonce, "payload", 32);
    var chunkNonce := Zero(12);
    chunkNonce := chunkNonce[11 := 1];
    assert chunkNonce == Zero(11) + [1];
    var ciphertext := p.seal(streamKey, chunkNonce, dataKey);
    var ageFile := AsciiBytes(fullHeader) + streamNonce + ciphertext;
    ConcatAssoc(AsciiBytes(fullHeader), streamNonce, ciphertext);

    var armorBody, armorLastLineEmpty := WrapBase64(Padded(ageFile));
    armored := ARMOR_BEGIN;
    armored := armored + armorBody;
    if !armorLastLineEmpty {
      armored := armored + "\n";
    }
    armored := armored + ARMOR_END;
    ArmorPieces(Padded(ageFile), armorBody, armorLastLineEmpty);
  }

  lemma ArmorPieces(s: string, body: string, full: bool)
    requires body == Wrapped(s) && (full <==> |s| % LINE == 0)
    ensures ARMOR_BEGIN + ArmorBody(s) == if full then ARMOR_BEGIN + body else ARMOR_BEGIN + body + "\n"
  {
    hide Wrapped;
  }

  // The reader, with the lines, sizes and labels of the format written out.

  function StripPrefix(t: string, prefix: string): Option<string>
  {
    if prefix <= t then Some(t[|prefix|..]) else None
  }

  function StripSuffix(t: string, suffix: string): Option<string>
  {
    if |suffix| <= |t| && t[|t| - |suffix|..] == suffix then Some(t[..|t| - |suffix|]) else None
  }

  /** One line of base64 and what follows it. */
  function ReadBase64Line(t: string): Option<(Bytes, string)>
  {
    var n := LineEnd(t);
    if n == |t| then None
    else match DecodeRaw(t[..n])
      case None => None
      case Some(b) => Some((b, t[n + 1..]))
  }

  datatype Parsed = Parsed(header: Header, macScope: Bytes, payload: Bytes)

  function StripArmor(t: string): Option<string>
  {
    match StripPrefix(t, "-----BEGIN AGE ENCRYPTED FILE-----\n")
    case None => None
    case Some(t1) => StripSuffix(t1, "-----END AGE ENCRYPTED FILE-----\n")
  }

  function StripIntro(t: string): Option<string>
  {
    StripPrefix(t, "age-encryption.org/v1\n-> X25519 ")
  }

  function Dearmor(t: string): Option<Bytes>
  {
    match StripArmor(t)
    case None => None
    case Some(body) => match ReadArmorBody(body)
      case None => None
      case Some(s) => DecodePadded(s)
  }

  /** Reads one X25519 stanza, then the MAC line; the MAC covers the file through the three dashes. */
  function ParseFile(file: Bytes): Option<Parsed>
  {
    var t := Latin(file);
    match StripIntro(t)
    case None => None
    case Some(t1) => match ReadBase64Line(t1)
      case None => None
      case Some((eph, t2)) => match ReadStanzaBody(t2)
        case None => None
        case Some(stanza) => match DecodeRaw(stanza.content)
          case None => None
          case Some(wrapped) => match StripPrefix(stanza.rest, "--- ")
            case None => None
            case Some(t4) => match ReadBase64Line(t4)
              case None => None
              case Some((mac, t5)) =>
                if |stanza.rest| <= |file| && |t5| <= |file| then
                  var scope := |file| - |stanza.rest| + 3;
                  if scope <= |file| then
                    Some(Parsed(Header(eph, wrapped, mac), file[..scope], file[|file| - |t5|..]))
                  else None
                else None
  }

  /** STREAM: full chunks, then a last one; an empty last chunk is only allowed on its own. */
  function OpenStream(p: Primitives, key: Bytes, i: nat, rest: Bytes): Option<Bytes>
    decreases |rest|
  {
    if |rest| <= 65536 + 16 then
      match p.open(key, ChunkNonce(i, true), rest)
      case None => None
      case Some(m) => if m == [] && i > 0 then None else Some(m)
    else
      match p.open(key, ChunkNonce(i, false), rest[..65536 + 16])
      case None => None
      case Some(m) => match OpenStream(p, key, i + 1, rest[65536 + 16..])
        case None => None
        case Some(more) => Some(m + more)
  }

  /** The keys are derived as the format says, not with the writer's functions. */
  function Decrypt(p: Primitives, f: Parsed, identity: Bytes): Option<Bytes>
  {
    var h := f.header;
    var shared := p.scalarMult(identity, h.ephemeralPublic);
    var salt := h.ephemeralPublic + p.scalarMultBase(identity);
    match p.open(p.hkdf(shared, salt, "age-encryption.org/v1/X25519", 32), seq(12, _ => 0), h.wrappedKey)
    case None => None
    case Some(fileKey) =>
      var macKey := p.hkdf(fileKey, seq(32, _ => 0), "header", 32);
      if p.hmac(macKey, f.macScope) != h.mac || |f.payload| < 16 then None
      else OpenStream(p, p.hkdf(fileKey, f.payload[..16], "payload", 32), 0, f.payload[16..])
  }

  function Open(p: Primitives, armored: string, identity: Bytes): Option<Bytes>
  {
    match Dearmor(armored)
    case None => None
    case Some(file) => match ParseFile(file)
      case None => None
      case Some(f) => Decrypt(p, f, identity)
  }

  // The reader undoes the writer.

  lemma ArmorLines()
    ensures ARMOR_BEGIN == "-----BEGIN AGE ENCRYPTED FILE-----\n"
    ensures ARMOR_END == "-----END AGE ENCRYPTED FILE-----\n"
  {}

  lemma IntroLine()
    ensures INTRO + STANZA == "age-encryption.org/v1\n-> X25519 "
  {}

  lemma StripArmorReads(body: string)
    ensures StripArmor(ARMOR_BEGIN + body + ARMOR_END) == Some(body)
  {
    ArmorLines();
    hide ARMOR_BEGIN, ARMOR_END;
    var t := ARMOR_BEGIN + body + ARMOR_END;
    ConcatAssoc(ARMOR_BEGIN, body, ARMOR_END);
    assert t[|ARMOR_BEGIN|..] == body + ARMOR_END;
    assert (body + ARMOR_END)[..|body|] == body;
  }

  lemma StripIntroReads(rest: string)
    ensures StripIntro((INTRO + STANZA) + rest) == Some(rest)
  {
    IntroLine();
    hide INTRO, STANZA;
    assert ((INTRO + STANZA) + rest)[|INTRO + STANZA|..] == rest;
  }

  lemma ArmorReadsBack(file: Bytes)
    ensures Dearmor(Armor(file)) == Some(file)
  {
    hide Padded, DecodePadded, ArmorBody, ReadArmorBody, StripArmor, ARMOR_BEGIN, ARMOR_END;
    PaddedRoundTrip(file);
    ArmorBodyReadsBack(Padded(file));
    StripArmorReads(ArmorBody(Padded(file)));
  }

  const ARMOR_LABEL := "AGE ENCRYPTED FILE"

  lemma BeginLabel()
    ensures "-----BEGIN " + ARMOR_LABEL + "-----\n" == ARMOR_BEGIN
  {}

  lemma EndLabel()
    ensures "-----END " + ARMOR_LABEL + "-----\n" == ARMOR_END
  {}

  /** The armor is derToPem's text of the same bytes under another label, except for no bytes at all. */
  lemma ArmorIsPem(file: Bytes)
    ensures Armor(file) == PemText(Padded(file), ARMOR_LABEL) <==> file != []
  {
    hide Padded, ArmorBody, PemBody, ARMOR_BEGIN, ARMOR_END, ARMOR_LABEL;
    RawNonEmpty(file);
    ArmorEqualsPem(Padded(file));
    SameAround(ARMOR_BEGIN, ArmorBody(Padded(file)), PemBody(Padded(file)), ARMOR_END);
    PemPieces(Padded(file));
  }

  lemma PemPieces(base64: string)
    ensures PemText(base64, ARMOR_LABEL) == ARMOR_BEGIN + PemBody(base64) + ARMOR_END
  {
    hide PemBody, ARMOR_BEGIN, ARMOR_END, ARMOR_LABEL;
    BeginLabel();
    EndLabel();
    ConcatAssoc("-----BEGIN " + ARMOR_LABEL + "-----\n" + PemBody(base64), "-----END " + ARMOR_LABEL, "-----\n");
    ConcatAssoc("-----BEGIN " + ARMOR_LABEL + "-----\n" + PemBody(base64), "-----END ", ARMOR_LABEL);
  }

  lemma SameAround(begin: string, x: string, y: string, end: string)
    ensures begin + x + end == begin + y + end <==> x == y
  {
    if begin + x + end == begin + y + end {
      assert |x| == |y|;
      assert (begin + x + end)[|begin|..|begin| + |x|] == x;
      assert (begin + y + end)[|begin|..|begin| + |y|] == y;
    }
  }

  lemma Base64LineReadsBack(b: Bytes, rest: string)
    ensures ReadBase64Line(Raw(b) + "\n" + rest) == Some((b, rest))
  {
    hide Raw, DecodeRaw;
    RawRoundTrip(b);
    LineEndOf(Raw(b), rest);
    var t := Raw(b) + "\n" + rest;
    assert t[..|Raw(b)|] == Raw(b) && t[|Raw(b)| + 1..] == rest;
  }

  lemma FileReadsBack(h: Header, payload: Bytes)
    ensures AsciiText(HeaderText(h.ephemeralPublic, h.wrappedKey))
    ensures ParseFile(FileBytes(h, payload))
         == Some(Parsed(h, AsciiBytes(HeaderText(h.ephemeralPublic, h.wrappedKey)), payload))
  {
    hide Raw, DecodeRaw, Wrapped, ReadStanzaBody, ReadBase64Line, StripIntro, INTRO, STANZA;
    var file := FileBytes(h, payload);
    var header := HeaderText(h.ephemeralPublic, h.wrappedKey);
    RawRoundTrip(h.wrappedKey);
    FullHeaderAscii(h);
    var full := header + " " + Raw(h.mac) + "\n";
    LatinOfAscii(full, payload);

    var t5 := Latin(payload);
    var t4 := Raw(h.mac) + "\n" + t5;
    var t3 := "--- " + t4;
    var t2 := Wrapped(Raw(h.wrappedKey)) + "\n" + t3;
    var t1 := Raw(h.ephemeralPublic) + "\n" + t2;
    FullText(Raw(h.ephemeralPublic), Wrapped(Raw(h.wrappedKey)), Raw(h.mac), t5);
    assert Latin(file) == (INTRO + STANZA) + t1;
    StripIntroReads(t1);
    Base64LineReadsBack(h.ephemeralPublic, t2);
    StanzaBodyReadsBack(Raw(h.wrappedKey), t3);
    assert t3[4..] == t4;
    Base64LineReadsBack(h.mac, t5);
    assert file == AsciiBytes(full) + payload;
    assert |full| == |header| + |t4| - |t5| + 1;
    assert file[..|header|] == AsciiBytes(header) by {
      assert full[..|header|] == header;
    }
  }

  lemma FullText(eph: string, wrapped: string, mac: string, t5: string)
    ensures INTRO + STANZA + eph + "\n" + wrapped + "\n" + "---" + " " + mac + "\n" + t5
         == (INTRO + STANZA) + (eph + "\n" + (wrapped + "\n" + ("--- " + (mac + "\n" + t5))))
  {
    hide INTRO, STANZA;
    assert "---" + " " == "--- ";
  }

  /**
   Whoever holds the recipient's private key gets exactly the data key back, for every choice
   of random values, as long as the data key fits in the single chunk that is written.
   */
  lemma RecipientOpens(p: Primitives, fileKey: Bytes, ephemeralPrivate: Bytes, streamNonce: Bytes,
                       dataKey: Bytes, identity: Bytes)
    requires Lawful(p) && |streamNonce| == STREAM_NONCE_SIZE && |dataKey| <= 65536
    ensures var recipient := p.scalarMultBase(identity);
            var armored := Armor(FileBytes(HeaderFor(p, fileKey, ephemeralPrivate, recipient),
                                           PayloadFor(p, fileKey, streamNonce, dataKey)));
            Open(p, armored, identity) == Some(dataKey)
  {
    hide Raw, Wrapped, AsciiBytes, HeaderText, FileBytes, Armor, Dearmor, ParseFile;
    var h := HeaderFor(p, fileKey, ephemeralPrivate, p.scalarMultBase(identity));
    var payload := PayloadFor(p, fileKey, streamNonce, dataKey);
    ArmorReadsBack(FileBytes(h, payload));
    FileReadsBack(h, payload);
    CounterZero(11);
    assert payload[..STREAM_NONCE_SIZE] == streamNonce;
    assert payload[STREAM_NONCE_SIZE..] == p.seal(StreamKey(p, fileKey, streamNonce), Zero(11) + [1], dataKey);
  }

  lemma {:induction false} CounterZero(n: nat)
    ensures Counter(0, n) == Zero(n)
  {
    if n > 0 { CounterZero(n - 1); }
  }

  // The laws can be met, and the bound on the data key is needed: one instance shows both.

  function Tagged(nonce: Bytes): (t: Bytes)
    ensures |t| == TAG
  {
    if |nonce| >= TAG then nonce[..TAG] else nonce + Zero(TAG - |nonce|)
  }

  function ToyPrimitives(): Primitives
  {
    Primitives(
      (a: Bytes) => Zero(32),
      (a: Bytes, b: Bytes) => Zero(32),
      (k: Bytes, s: Bytes, info: string, n: nat) => Zero(n),
      (k: Bytes, m: Bytes) => Zero(32),
      (k: Bytes, n: Bytes, m: Bytes) => m + Tagged(n),
      (k: Bytes, n: Bytes, c: Bytes) =>
        if |c| >= TAG && c[|c| - TAG..] == Tagged(n) then Some(c[..|c| - TAG]) else None)
  }

  lemma ToyIsLawful()
    ensures Lawful(ToyPrimitives())
  {
    var p := ToyPrimitives();
    forall k: Bytes, n: Bytes, m: Bytes ensures p.open(k, n, p.seal(k, n, m)) == Some(m) {
      var c := m + Tagged(n);
      assert c[|m|..] == Tagged(n) && c[..|m|] == m;
    }
  }

  /** What whoever holds the identity reads from a file written for it. */
  function Reopened(p: Primitives, fileKey: Bytes, ephemeralPrivate: Bytes, streamNonce: Bytes, dataKey: Bytes,
                    identity: Bytes): Option<Bytes>
    requires |streamNonce| == STREAM_NONCE_SIZE
  {
    var h := HeaderFor(p, fileKey, ephemeralPrivate, p.scalarMultBase(identity));
    Open(p, Armor(FileBytes(h, PayloadFor(p, fileKey, streamNonce, dataKey))), identity)
  }

  /** With these primitives a data key of sevens that does not fit in one chunk cannot be read. */
  lemma OversizedKeyDoesNotOpen(fileKey: Bytes, ephemeralPrivate: Bytes, streamNonce: Bytes, identity: Bytes, n: nat)
    requires |streamNonce| == STREAM_NONCE_SIZE && n > 65536
    ensures Reopened(ToyPrimitives(), fileKey, ephemeralPrivate, streamNonce, seq(n, _ => 7), identity) == None
  {
    hide Raw, Wrapped, AsciiBytes, HeaderText, FileBytes, Armor, Dearmor, ParseFile;
    var p := ToyPrimitives();
    var dataKey: Bytes := seq(n, _ => 7);
    var h := HeaderFor(p, fileKey, ephemeralPrivate, p.scalarMultBase(identity));
    var payload := PayloadFor(p, fileKey, streamNonce, dataKey);
    ArmorReadsBack(FileBytes(h, payload));
    FileReadsBack(h, payload);
    assert payload[..STREAM_NONCE_SIZE] == streamNonce;
    var rest := payload[STREAM_NONCE_SIZE..];
    assert rest == dataKey + Tagged(Zero(11) + [1]);
    // The tag of the first full chunk would have to begin with a zero, but begins inside the data.
    CounterZero(11);
    var chunk := rest[..65536 + 16];
    assert chunk[65536] == 7 && chunk[|chunk| - TAG..][0] == 7;
    assert Tagged(ChunkNonce(0, false))[0] == 0;
  }

  ghost predicate AlwaysReopens(n: nat)
  {
    forall p, fileKey, ephemeralPrivate, streamNonce: Bytes, dataKey: Bytes, identity ::
      Lawful(p) && |streamNonce| == STREAM_NONCE_SIZE && |dataKey| == n ==>
        Reopened(p, fileKey, ephemeralPrivate, streamNonce, dataKey, identity) == Some(dataKey)
  }

  /** Every data key of a length reads back, with all lawful primitives, exactly when it fits in one chunk. */
  lemma ChunkLimitExactly(n: nat)
    ensures AlwaysReopens(n) <==> n <= 65536
  {
    hide Lawful, Open, Armor, FileBytes, HeaderFor, PayloadFor;
    if n <= 65536 {
      forall p, fileKey, ephemeralPrivate, streamNonce: Bytes, dataKey: Bytes, identity
        | Lawful(p) && |streamNonce| == STREAM_NONCE_SIZE && |dataKey| == n
        ensures Reopened(p, fileKey, ephemeralPrivate, streamNonce, dataKey, identity) == Some(dataKey)
      {
        RecipientOpens(p, fileKey, ephemeralPrivate, streamNonce, dataKey, identity);
      }
    } else {
      ToyIsLawful();
      hide Reopened;
      var dataKey: Bytes := seq(n, _ => 7);
      OversizedKeyDoesNotOpen([], [], Zero(16), [], n);
      assert Reopened(ToyPrimitives(), [], [], Zero(16), dataKey, []) != Some(dataKey);
    }
  }
}
