// Column encryption (internal/store/crypt.go).
module Columns {
  import opened Outcomes
  import opened Text

  const ENC_PREFIX: string := "enc1:"

  // The cipher and base64, by the laws the store needs of them: each undoes
  // itself, and neither decoding nor decrypting lengthens its input.
  datatype Aead = Aead(
    nonceSize: nat,
    encrypt: (string, string) -> string,
    decrypt: (string, string) -> Option<string>,
    encode: string -> string,
    decode: string -> Option<string>)
  {
    ghost predicate Valid() {
      && (forall n, p :: |n| == nonceSize ==> decrypt(n, encrypt(n, p)) == Some(p))
      && (forall x :: decode(encode(x)) == Some(x))
      && (forall n, c :: decrypt(n, c).Some? ==> |decrypt(n, c).value| <= |c|)
      && (forall x :: decode(x).Some? ==> |decode(x).value| <= |x|)
    }
  }

  // The laws can be met, for nonces of any size.
  lemma IdealAeadExists(size: nat)
    ensures exists k: Aead :: k.Valid() && k.nonceSize == size
  {
    var k := Aead(size, (n: string, p: string) => p, (n: string, c: string) => Some(c), x => x, x => Some(x));
    assert k.Valid();
  }

  // None is plaintext storage.
  type Key = Option<Aead>

  predicate Marked(stored: string) {
    HasPrefix(stored, ENC_PREFIX)
  }

  // A nonce of the right size from whatever the random source delivers.
  function FreshNonce(size: nat, entropy: string): (n: string)
    ensures |n| == size
  {
    seq(size, i requires 0 <= i < size => if i < |entropy| then entropy[i] else '\0')
  }

  function Seal(key: Key, entropy: string, plain: string): string {
    if key.None? then plain
    else
      var nonce := FreshNonce(key.value.nonceSize, entropy);
      ENC_PREFIX + key.value.encode(nonce + key.value.encrypt(nonce, plain))
  }

  function Open(key: Key, stored: string): Result<string> {
    if key.None? || !Marked(stored) then Ok(stored)
    else
      var ct := key.value.decode(stored[|ENC_PREFIX|..]);
      if ct.None? then Err("base64")
      else if |ct.value| < key.value.nonceSize then Err("encrypted column too short")
      else
        var n := key.value.nonceSize;
        var plain := key.value.decrypt(ct.value[..n], ct.value[n..]);
        if plain.None? then Err("decrypt column") else Ok(plain.value)
  }

  // The stored text is the marker and, encoded, a nonce of the cipher's size followed by
  // the plain text encrypted under it.
  ghost predicate IsEncrypted(k: Aead, stored: string, plain: string) {
    && |stored| >= 5 && stored[..5] == "enc1:"
    && exists n: string :: |n| == k.nonceSize && k.decode(stored[5..]) == Some(n + k.encrypt(n, plain))
  }

  // With a key every text is stored encrypted, under the nonce that the random source
  // delivers; without one it is stored as it is.
  lemma SealEncrypts(key: Key, entropy: string, plain: string)
    requires key.Some? ==> key.value.Valid()
    ensures key.Some? ==> IsEncrypted(key.value, Seal(key, entropy, plain), plain)
    ensures key.Some? && |entropy| == key.value.nonceSize ==>
      key.value.decode(Seal(key, entropy, plain)[5..]) == Some(entropy + key.value.encrypt(entropy, plain))
    ensures key.None? ==> Seal(key, entropy, plain) == plain
  {
    if key.Some? {
      var stored, nonce := Seal(key, entropy, plain), FreshNonce(key.value.nonceSize, entropy);
      assert |entropy| == |nonce| ==> nonce == entropy;
      assert stored[..5] == ENC_PREFIX && stored[5..] == key.value.encode(nonce + key.value.encrypt(nonce, plain));
    }
  }

  // What is stored encrypted opens to its plain text and to no other.
  lemma EncryptedOpens(k: Aead, stored: string, plain: string)
    requires k.Valid() && IsEncrypted(k, stored, plain)
    ensures Open(Some(k), stored) == Ok(plain)
  {
    var n: string :| |n| == k.nonceSize && k.decode(stored[5..]) == Some(n + k.encrypt(n, plain));
    var ct := n + k.encrypt(n, plain);
    assert ct[..|n|] == n && ct[|n|..] == k.encrypt(n, plain);
  }

  // Opening a marked column succeeds exactly when it decodes to a whole nonce and a
  // ciphertext that decrypts under it, and gives what that decrypts to. An unmarked
  // column, or any column without a key, is read as it is.
  lemma OpenExactly(key: Key, stored: string, plain: string)
    ensures key.None? || !(|stored| >= 5 && stored[..5] == "enc1:") ==> Open(key, stored) == Ok(stored)
    ensures key.Some? && |stored| >= 5 && stored[..5] == "enc1:" ==>
      var ct, size := key.value.decode(stored[5..]), key.value.nonceSize;
      Open(key, stored) == Ok(plain) <==>
        ct.Some? && |ct.value| >= size && key.value.decrypt(ct.value[..size], ct.value[size..]) == Some(plain)
  {
  }

  // Open undoes Seal under one key, whatever the text and the nonce.
  lemma OpenUndoesSeal(key: Key, entropy: string, plain: string)
    requires key.Some? ==> key.value.Valid()
    ensures Open(key, Seal(key, entropy, plain)) == Ok(plain)
  {
  }

  // A value written in plaintext stays readable under a key exactly when it lacks
  // the marker: what a marked value opens to is shorter than the value itself.
  lemma PlaintextReadableIffUnmarked(k: Aead, stored: string)
    requires k.Valid()
    ensures Open(Some(k), stored) == Ok(stored) <==> !Marked(stored)
  {
  }
}
