/** The signed transcript and the order of sealing and opening. */
module Envelope {
  import opened ByteStrings
  import opened Wrappers
  import opened Aad

  type Nonce = b: Bytes | |b| == 12 witness [0, 0, 0, 0, 0, 0, 0, 0, 0, 0, 0, 0]

  datatype HybridCiphertext = HybridCiphertext(kemOutput: Bytes, ciphertext: Bytes, nonce: Nonce)

  datatype CryptoEnvelope = CryptoEnvelope(aad: Bytes, ciphertext: HybridCiphertext, signature: Bytes)

  datatype EnvelopeError = SignatureVerificationFailed | DecryptionFailed | BadAad(error: AadError)

  /** The AAD, the KEM output and the nonce, one after the other without lengths. */
  method SigningMessage(aad: Bytes, ct: HybridCiphertext) returns (msg: Bytes)
    ensures msg == Transcript(aad, ct)
  {
    msg := [];
    msg := msg + aad;
    msg := msg + ct.kemOutput;
    msg := msg + ct.nonce;
  }

  function Transcript(aad: Bytes, ct: HybridCiphertext): Bytes {
    aad + ct.kemOutput + ct.nonce
  }

  /** Where each part stands: the AAD first, the nonce in the last 12 bytes, the KEM output between. */
  lemma TranscriptParts(aad: Bytes, ct: HybridCiphertext)
    ensures var t := Transcript(aad, ct);
      && |t| == |aad| + |ct.kemOutput| + 12
      && t[..|aad|] == aad && t[|aad|..|t| - 12] == ct.kemOutput && t[|t| - 12..] == ct.nonce
  {
  }

  /** For encoded AADs the transcript determines all three parts. */
  lemma TranscriptUnambiguous(keys: Keys, a: MessageAad, ct: HybridCiphertext, a': MessageAad, ct': HybridCiphertext)
    requires Transcript(Encode(keys, a), ct) == Transcript(Encode(keys, a'), ct')
    ensures a == a' && ct.kemOutput == ct'.kemOutput && ct.nonce == ct'.nonce
  {
    var x, y := ct.kemOutput + ct.nonce, ct'.kemOutput + ct'.nonce;
    assert Encode(keys, a) + x == Encode(keys, a) + ct.kemOutput + ct.nonce;
    assert Encode(keys, a') + y == Encode(keys, a') + ct'.kemOutput + ct'.nonce;
    EncodingPrefixFree(keys, a, a', x, y);
    OneIsBeginning(Encode(keys, a), ct, Encode(keys, a'), ct');
  }

  /** What stands at the end of the AAD can as well stand at the start of the KEM output. */
  lemma RawTranscriptAmbiguous(aad: Bytes, x: Bytes, kem: Bytes, c: Bytes, nonce: Nonce)
    ensures Transcript(aad + x, HybridCiphertext(kem, c, nonce)) == Transcript(aad, HybridCiphertext(x + kem, c, nonce))
  {
    assert aad + x + kem + nonce == aad + (x + kem) + nonce;
  }

  ghost predicate SameParts(aad: Bytes, ct: HybridCiphertext, aad': Bytes, ct': HybridCiphertext) {
    aad == aad' && ct.kemOutput == ct'.kemOutput && ct.nonce == ct'.nonce
  }

  /** Over these byte strings in the place of the AAD, the transcript determines all three parts. */
  ghost predicate Unambiguous(aads: iset<Bytes>) {
    forall a, ct, a', ct' | a in aads && a' in aads && Transcript(a, ct) == Transcript(a', ct') :: SameParts(a, ct, a', ct')
  }

  /** It does if and only if none of them is a proper beginning of another. */
  lemma UnambiguousIff(aads: iset<Bytes>)
    ensures Unambiguous(aads) <==> forall a, a' | a in aads && a' in aads && a <= a' :: a == a'
  {
    if Unambiguous(aads) {
      forall a, a' | a in aads && a' in aads && a <= a' ensures a == a' {
        var x, nonce := a'[|a|..], [0, 0, 0, 0, 0, 0, 0, 0, 0, 0, 0, 0];
        RawTranscriptAmbiguous(a, x, [], [], nonce);
        assert a + x == a';
        assert SameParts(a', HybridCiphertext([], [], nonce), a, HybridCiphertext(x + [], [], nonce));
      }
    }
    if forall a, a' | a in aads && a' in aads && a <= a' :: a == a' {
      forall a, ct, a', ct' | a in aads && a' in aads && Transcript(a, ct) == Transcript(a', ct')
        ensures SameParts(a, ct, a', ct')
      {
        OneIsBeginning(a, ct, a', ct');
      }
    }
  }

  lemma OneIsBeginning(a: Bytes, ct: HybridCiphertext, a': Bytes, ct': HybridCiphertext)
    requires Transcript(a, ct) == Transcript(a', ct')
    ensures a <= a' || a' <= a
    ensures a == a' ==> SameParts(a, ct, a', ct')
  {
    var x, y := ct.kemOutput + ct.nonce, ct'.kemOutput + ct'.nonce;
    assert a + x == Transcript(a, ct) == Transcript(a', ct') == a' + y;
    if a == a' {
      assert x == (a + x)[|a|..] == y;
      assert ct.kemOutput == x[..|x| - 12] && ct.nonce == x[|x| - 12..];
      assert ct'.kemOutput == y[..|y| - 12] && ct'.nonce == y[|y| - 12..];
    } else if |a| <= |a'| {
      assert a == (a' + y)[..|a|];
    } else {
      assert a' == (a + x)[..|a'|];
    }
  }

  /** The foreign primitives under one recipient and one sender key pair. */
  datatype Suite = Suite(
    encrypt: (Bytes, Bytes) -> HybridCiphertext,
    decrypt: (HybridCiphertext, Bytes) -> Option<Bytes>,
    sign: Bytes -> Bytes,
    verify: (Bytes, Bytes) -> bool)

  /** Matching keys: decryption undoes encryption under the same AAD, signatures verify. */
  ghost predicate Matched(s: Suite) {
    && (forall p, a :: s.decrypt(s.encrypt(p, a), a) == Some(p))
    && (forall m :: s.verify(m, s.sign(m)))
  }

  ghost function Sealed(keys: Keys, s: Suite, plaintext: Bytes, aad: MessageAad): CryptoEnvelope {
    var ct := s.encrypt(plaintext, Encode(keys, aad));
    CryptoEnvelope(Encode(keys, aad), ct, s.sign(Transcript(Encode(keys, aad), ct)))
  }

  ghost function Opened(keys: Keys, s: Suite, env: CryptoEnvelope): Result<(Bytes, MessageAad), EnvelopeError> {
    if !s.verify(Transcript(env.aad, env.ciphertext), env.signature) then Err(SignatureVerificationFailed)
    else if s.decrypt(env.ciphertext, env.aad).None? then Err(DecryptionFailed)
    else if DecodeSpec(keys, env.aad).Err? then Err(BadAad(DecodeSpec(keys, env.aad).error))
    else Ok((s.decrypt(env.ciphertext, env.aad).value, DecodeSpec(keys, env.aad).value))
  }

  /** Opening a sealed envelope gives back the plaintext and every AAD field. */
  lemma OpenInvertsSeal(keys: Keys, s: Suite, plaintext: Bytes, aad: MessageAad)
    requires Matched(s)
    ensures Opened(keys, s, Sealed(keys, s, plaintext, aad)) == Ok((plaintext, aad))
  {
    DecodeInvertsEncode(keys, aad, []);
  }

  /** The transcript of an envelope. */
  ghost function TranscriptOf(env: CryptoEnvelope): Bytes {
    Transcript(env.aad, env.ciphertext)
  }

  /** With matching keys the receiver opens the result to exactly the plaintext and the AAD; the
      metadata can be read without any key. */
  method SealEnvelope(keys: Keys, s: Suite, plaintext: Bytes, aad: MessageAad) returns (env: CryptoEnvelope)
    ensures env == Sealed(keys, s, plaintext, aad)
    ensures DecodeSpec(keys, env.aad) == Ok(aad)
    ensures Matched(s) ==> s.verify(TranscriptOf(env), env.signature)
    ensures Matched(s) ==> Opened(keys, s, env) == Ok((plaintext, aad))
  {
    var aadBytes := Encode(keys, aad);
    var ciphertext := s.encrypt(plaintext, aadBytes);
    var msg := SigningMessage(aadBytes, ciphertext);
    env := CryptoEnvelope(aadBytes, ciphertext, s.sign(msg));
    DecodeInvertsEncode(keys, aad, []);
    if Matched(s) {
      OpenInvertsSeal(keys, s, plaintext, aad);
    }
  }

  /** Nothing comes back unless the signature verified and decryption under this very AAD
      succeeded; an encoded AAD comes back exactly. */
  method OpenEnvelope(keys: Keys, s: Suite, env: CryptoEnvelope) returns (r: Result<(Bytes, MessageAad), EnvelopeError>)
    ensures r == Opened(keys, s, env)
    ensures r == Err(SignatureVerificationFailed) <==> !s.verify(TranscriptOf(env), env.signature)
    ensures r == Err(DecryptionFailed) <==> s.verify(TranscriptOf(env), env.signature) && s.decrypt(env.ciphertext, env.aad).None?
    ensures forall e :: r == Err(BadAad(e)) <==>
      s.verify(TranscriptOf(env), env.signature) && s.decrypt(env.ciphertext, env.aad).Some? && DecodeSpec(keys, env.aad) == Err(e)
    ensures r.Ok? ==> s.decrypt(env.ciphertext, env.aad) == Some(r.value.0) && DecodeSpec(keys, env.aad) == Ok(r.value.1)
    ensures forall a: MessageAad :: env.aad == Encode(keys, a) ==>
      (r.Ok? ==> r.value.1 == a)
      && (r.Ok? <==> s.verify(TranscriptOf(env), env.signature) && s.decrypt(env.ciphertext, env.aad).Some?)
  {
    forall a: MessageAad | env.aad == Encode(keys, a) ensures DecodeSpec(keys, env.aad) == Ok(a) {
      DecodeInvertsEncode(keys, a, []);
    }
    var msg := SigningMessage(env.aad, env.ciphertext);
    if !s.verify(msg, env.signature) {
      return Err(SignatureVerificationFailed);
    }
    var plaintext := s.decrypt(env.ciphertext, env.aad);
    if plaintext.None? {
      return Err(DecryptionFailed);
    }
    var aad := Decode(keys, env.aad);
    if aad.Err? {
      return Err(BadAad(aad.error));
    }
    return Ok((plaintext.value, aad.value));
  }
}
