/**
 Field encryption at rest. AES-GCM and base64 are abstract: sealing and encoding are
 functions that opening and decoding undo. The envelope around them is modelled.
 */
module Cipher {
  import opened Wrappers


  // `nonce` is the randomness of one call; encryption can fail, decryption can refuse.
  datatype Cipher = Cipher(encrypt: (string, string) -> Option<string>, decrypt: string -> Option<string>)

  // Decryption undoes encryption.
  ghost predicate Lawful(c: Cipher) {
    forall p, n :: c.encrypt(p, n).Some? ==> c.decrypt(c.encrypt(p, n).value) == Some(p)
  }

  // `c` opens nothing that `d` wrote.
  ghost predicate Foreign(c: Cipher, d: Cipher) {
    forall p, n :: d.encrypt(p, n).Some? ==> c.decrypt(d.encrypt(p, n).value).None?
  }

  const TAG := "v1:"

  // ---- No encryption ---------------------------------------------------------------------

  const NOOP := Cipher((p, n) => Some(p), s => if TAG <= s then None else Some(s))

  // The noop cipher gives back exactly the values that do not look encrypted.
  lemma NoopRoundTrip(p: string, n: string)
    ensures NOOP.encrypt(p, n) == Some(p)
    ensures NOOP.decrypt(p) == Some(p) <==> !(TAG <= p)
  {
  }

  // ---- AES-GCM in its envelope --------------------------------------------------------------

  datatype Aead = Aead(nonceSize: nat, seal: (string, string) -> string, open: (string, string) -> Option<string>)

  ghost predicate AeadLaw(a: Aead) {
    forall n, p :: |n| == a.nonceSize ==> a.open(n, a.seal(n, p)) == Some(p)
  }

  datatype Base64 = Base64(encode: string -> string, decode: string -> Option<string>)

  ghost predicate Base64Law(b: Base64) {
    forall x :: b.decode(b.encode(x)) == Some(x)
  }

  function Encrypt(a: Aead, b: Base64, plain: string, nonce: string): Option<string> {
    if |nonce| != a.nonceSize then None
    else Some(TAG + b.encode(nonce + a.seal(nonce, plain)))
  }

  function Decrypt(a: Aead, b: Base64, encoded: string): Option<string> {
    if !(TAG <= encoded) then None
    else
      var payload := b.decode(encoded[|TAG|..]);
      if payload.None? || |payload.value| < a.nonceSize then None
      else a.open(payload.value[..a.nonceSize], payload.value[a.nonceSize..])
  }

  function AesGcm(a: Aead, b: Base64): Cipher {
    Cipher((p, n) => Encrypt(a, b, p, n), s => Decrypt(a, b, s))
  }

  lemma EnvelopeRoundTrip(a: Aead, b: Base64, plain: string, nonce: string)
    requires AeadLaw(a) && Base64Law(b) && |nonce| == a.nonceSize
    ensures Encrypt(a, b, plain, nonce).Some?
    ensures Decrypt(a, b, Encrypt(a, b, plain, nonce).value) == Some(plain)
  {
    var payload := nonce + a.seal(nonce, plain);
    var encoded := TAG + b.encode(payload);
    assert encoded[|TAG|..] == b.encode(payload);
    assert payload[..a.nonceSize] == nonce && payload[a.nonceSize..] == a.seal(nonce, plain);
  }

  lemma AesGcmLawful(a: Aead, b: Base64)
    requires AeadLaw(a) && Base64Law(b)
    ensures Lawful(AesGcm(a, b))
  {
    var c := AesGcm(a, b);
    forall p, n | c.encrypt(p, n).Some?
      ensures c.decrypt(c.encrypt(p, n).value) == Some(p)
    {
      EnvelopeRoundTrip(a, b, p, n);
    }
  }

  // The tag keeps the two apart: neither opens what the other wrote, save that AES-GCM
  // looks at plain values that carry the tag themselves.
  lemma TagsKeepApart(a: Aead, b: Base64, plain: string)
    ensures Foreign(NOOP, AesGcm(a, b))
    ensures !(TAG <= plain) ==> AesGcm(a, b).decrypt(plain).None?
  {
    forall p, n | AesGcm(a, b).encrypt(p, n).Some?
      ensures NOOP.decrypt(AesGcm(a, b).encrypt(p, n).value).None?
    {
      assert TAG <= Encrypt(a, b, p, n).value;
    }
  }
}
