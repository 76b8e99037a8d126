/**
 csharp/SopsEncrypt.cs, EncryptForSecret: from an age1... recipient string to the encrypted data key.
 */
module Recipient {
  import opened Wrappers
  import opened AgeFile
  import Codec = Bech32

  /** The key in a recipient string: the prefix must be exactly "age" and the key 32 bytes. */
  function ParseRecipient(u: Codec.Casing, publicKey: string): Option<Bytes>
  {
    match Codec.Decoding(u, publicKey)
    case Err(_) => None
    case Ok(d) => if d.hrp == "age" && |d.data| == 32 then Some(d.data) else None
  }

  /** The accepted recipient strings are exactly the lower-case encodings of 32-byte keys. */
  lemma AcceptedRecipients(u: Codec.Casing, publicKey: string, key: Bytes)
    requires Codec.Lawful(u)
    ensures ParseRecipient(u, publicKey) == Some(key) <==> |key| == 32 && publicKey == Codec.Encoded(u, "age", key)
  {
    hide Codec.Encoded, Codec.Decoding;
    AgeIsLower(u);
    Codec.RoundTrip(u, "age", key);
    if ParseRecipient(u, publicKey) == Some(key) {
      Codec.Canonical(u, publicKey);
      SingleCase(u, publicKey);
    }
  }

  lemma AgeIsLower(u: Codec.Casing)
    requires Codec.Lawful(u)
    ensures Codec.Lower(u, "age") == "age"
  {}

  /** A string of one case that starts with a lower-case letter is lower case. */
  lemma SingleCase(u: Codec.Casing, s: string)
    requires Codec.Lawful(u) && !Codec.Mixed(u, s) && "age" <= s
    ensures Codec.Lower(u, s) == s
  {
    assert s[0] == 'a' && Codec.Upper(u, s)[0] == u.upper(s[0]);
  }

  /** A secret encrypted to the recipient string of an identity is opened by that identity. */
  lemma RecipientStringOpens(u: Codec.Casing, p: Primitives, identity: Bytes, fileKey: Bytes,
                             ephemeralPrivate: Bytes, streamNonce: Bytes, dataKey: Bytes)
    requires Codec.Lawful(u) && Lawful(p) && |streamNonce| == STREAM_NONCE_SIZE && |dataKey| <= 65536
    ensures var publicKey := Codec.Encoded(u, "age", p.scalarMultBase(identity));
            && ParseRecipient(u, publicKey).Some?
            && var recipient := ParseRecipient(u, publicKey).value;
               Open(p, Armor(FileBytes(HeaderFor(p, fileKey, ephemeralPrivate, recipient),
                                       PayloadFor(p, fileKey, streamNonce, dataKey))), identity) == Some(dataKey)
  {
    hide Codec.Encoded, Codec.Decoding, Open, Armor, FileBytes, HeaderFor, PayloadFor;
    AgeIsLower(u);
    Codec.RoundTrip(u, "age", p.scalarMultBase(identity));
    RecipientOpens(p, fileKey, ephemeralPrivate, streamNonce, dataKey, identity);
  }
}
