/**
 * The monitor's identity material (`sm_copy_key`) and sealing-key derivation
 * (`sm_derive_sealing_key`).
 *
 * The byte-array sizes come from the cryptography header, which is not part
 * of this model; the values below are the ones the monitor is built with
 * (a 64-byte hash and signature, 32-byte public keys, a 64-byte private key
 * that embeds its public half, a 128-byte sealing key). The key-derivation
 * function `kdf` is an opaque deterministic primitive: a function parameter.
 */
module Keys {

  type Byte = x: int | 0 <= x < 256

  const MDSIZE: nat := 64
  const SIGNATURE_SIZE: nat := 64
  const PUBLIC_KEY_SIZE: nat := 32
  const PRIVATE_KEY_SIZE: nat := 64
  const SEALING_KEY_SIZE: nat := 128

  /** The five identity values, as the boot ROM supplies them or as the monitor holds them. */
  datatype KeyMaterial = KeyMaterial(
    hash: seq<Byte>,
    signature: seq<Byte>,
    publicKey: seq<Byte>,
    privateKey: seq<Byte>,
    devPublicKey: seq<Byte>)
  {
    /** Every value has the size of its array. */
    predicate WellSized()
    {
      && |hash| == MDSIZE
      && |signature| == SIGNATURE_SIZE
      && |publicKey| == PUBLIC_KEY_SIZE
      && |privateKey| == PRIVATE_KEY_SIZE
      && |devPublicKey| == PUBLIC_KEY_SIZE
    }
  }

  /** Every byte of the five arrays zero, as the monitor's globals start. */
  function Zeroed(): (z: KeyMaterial)
    ensures z.WellSized()
    ensures forall i :: 0 <= i < MDSIZE ==> z.hash[i] == 0
    ensures forall i :: 0 <= i < SIGNATURE_SIZE ==> z.signature[i] == 0
    ensures forall i :: 0 <= i < PRIVATE_KEY_SIZE ==> z.privateKey[i] == 0
    ensures forall i :: 0 <= i < PUBLIC_KEY_SIZE ==> z.publicKey[i] == 0 && z.devPublicKey[i] == 0
  {
    KeyMaterial(seq(MDSIZE, _ => 0), seq(SIGNATURE_SIZE, _ => 0), seq(PUBLIC_KEY_SIZE, _ => 0),
                seq(PRIVATE_KEY_SIZE, _ => 0), seq(PUBLIC_KEY_SIZE, _ => 0))
  }

  /** `sbi_memcpy(dst, src, |src|)` over a whole fixed-size buffer. */
  method CopyBytes(dst: array<Byte>, src: seq<Byte>)
    requires dst.Length == |src|
    modifies dst
    ensures dst[..] == src
  {
    forall i | 0 <= i < dst.Length {
      dst[i] := src[i];
    }
  }

  /**
   * The monitor-owned globals `sm_hash`, `sm_signature`, `sm_public_key`,
   * `sm_private_key` and `dev_public_key`: five distinct fixed-size arrays.
   */
  class KeyStore {
    const smHash: array<Byte>
    const smSignature: array<Byte>
    const smPublicKey: array<Byte>
    const smPrivateKey: array<Byte>
    const devPublicKey: array<Byte>

    ghost function Repr(): set<object>
    {
      {smHash, smSignature, smPublicKey, smPrivateKey, devPublicKey}
    }

    ghost predicate Valid()
    {
      && smHash.Length == MDSIZE
      && smSignature.Length == SIGNATURE_SIZE
      && smPublicKey.Length == PUBLIC_KEY_SIZE
      && smPrivateKey.Length == PRIVATE_KEY_SIZE
      && devPublicKey.Length == PUBLIC_KEY_SIZE
      && smHash != smSignature && smHash != smPublicKey && smHash != smPrivateKey && smHash != devPublicKey
      && smSignature != smPublicKey && smSignature != smPrivateKey && smSignature != devPublicKey
      && smPublicKey != smPrivateKey && smPublicKey != devPublicKey
      && smPrivateKey != devPublicKey
    }

    /** What the five arrays hold. */
    function Contents(): KeyMaterial
      reads smHash, smSignature, smPublicKey, smPrivateKey, devPublicKey
    {
      KeyMaterial(smHash[..], smSignature[..], smPublicKey[..], smPrivateKey[..], devPublicKey[..])
    }

    /** The globals are zero-initialised (`= { 0, }`). */
    constructor ()
      ensures Valid() && fresh(Repr())
      ensures Contents() == Zeroed()
    {
      smHash := new Byte[MDSIZE](_ => 0);
      smSignature := new Byte[SIGNATURE_SIZE](_ => 0);
      smPublicKey := new Byte[PUBLIC_KEY_SIZE](_ => 0);
      smPrivateKey := new Byte[PRIVATE_KEY_SIZE](_ => 0);
      devPublicKey := new Byte[PUBLIC_KEY_SIZE](_ => 0);
    }

    /**
     * `sm_copy_key`: each monitor array receives its boot-ROM source element
     * for element; the private key comes from the ROM's secret key.
     */
    method CopyKey(rom: KeyMaterial)
      requires Valid() && rom.WellSized()
      modifies Repr()
      ensures Valid()
      ensures Contents() == rom
    {
      CopyBytes(smHash, rom.hash);
      CopyBytes(smSignature, rom.signature);
      CopyBytes(smPublicKey, rom.publicKey);
      CopyBytes(smPrivateKey, rom.privateKey);
      CopyBytes(devPublicKey, rom.devPublicKey);
    }

    /**
     * `sm_derive_sealing_key`: one call to `kdf` with no salt, the monitor's
     * private key as the secret, the measurement followed by the key
     * identifier as the info string, and SEALING_KEY_SIZE output bytes.
     */
    function DeriveSealingKey(kdf: Kdf, keyIdent: seq<Byte>, enclaveHash: seq<Byte>): (r: KdfResult)
      requires |enclaveHash| == MDSIZE
      reads smPrivateKey
    {
      kdf(SealingKdfCall(smPrivateKey[..], keyIdent, enclaveHash))
    }
  }

  /** The arguments of a `kdf` call: salt, secret, info and output length. */
  datatype KdfCall = KdfCall(salt: seq<Byte>, secret: seq<Byte>, info: seq<Byte>, outLen: nat)

  /** What `kdf` returns: its status and the key it wrote. */
  datatype KdfResult = KdfResult(status: int, key: seq<Byte>)

  type Kdf = KdfCall -> KdfResult

  /**
   * The info buffer `info[MDSIZE + key_ident_size]`: the enclave
   * measurement in its first MDSIZE bytes, the key identifier after it.
   */
  function SealingInfo(enclaveHash: seq<Byte>, keyIdent: seq<Byte>): (info: seq<Byte>)
    requires |enclaveHash| == MDSIZE
    ensures |info| == MDSIZE + |keyIdent|
    ensures info[..MDSIZE] == enclaveHash
    ensures info[MDSIZE..] == keyIdent
  {
    enclaveHash + keyIdent
  }

  /** The call `sm_derive_sealing_key` makes to `kdf`. */
  function SealingKdfCall(privateKey: seq<Byte>, keyIdent: seq<Byte>, enclaveHash: seq<Byte>): KdfCall
    requires |enclaveHash| == MDSIZE
  {
    KdfCall([], privateKey, SealingInfo(enclaveHash, keyIdent), SEALING_KEY_SIZE)
  }

  /**
   * What `kdf` receives: an empty salt, the secret, an info string of
   * MDSIZE + |keyIdent| bytes made of the measurement then the identifier,
   * and the sealing-key length.
   */
  lemma SealingKdfCallShape(privateKey: seq<Byte>, keyIdent: seq<Byte>, enclaveHash: seq<Byte>)
    requires |enclaveHash| == MDSIZE
    ensures var c := SealingKdfCall(privateKey, keyIdent, enclaveHash);
      && c.salt == []
      && c.secret == privateKey
      && |c.info| == MDSIZE + |keyIdent|
      && (forall i :: 0 <= i < MDSIZE ==> c.info[i] == enclaveHash[i])
      && (forall i :: 0 <= i < |keyIdent| ==> c.info[MDSIZE + i] == keyIdent[i])
      && c.outLen == SEALING_KEY_SIZE
  {
    var info := SealingInfo(enclaveHash, keyIdent);
    forall i | 0 <= i < |keyIdent|
      ensures info[MDSIZE + i] == keyIdent[i]
    {
      assert info[MDSIZE..][i] == keyIdent[i];
    }
  }

  /**
   * The info string determines the measurement and the identifier: two
   * derivations reach `kdf` with the same input only when they have the same
   * private key, measurement and identifier. A different enclave
   * measurement therefore always asks `kdf` a different question.
   */
  lemma SealingKdfCallInjective(pk1: seq<Byte>, id1: seq<Byte>, h1: seq<Byte>, pk2: seq<Byte>, id2: seq<Byte>, h2: seq<Byte>)
    requires |h1| == MDSIZE && |h2| == MDSIZE
    requires SealingKdfCall(pk1, id1, h1) == SealingKdfCall(pk2, id2, h2)
    ensures pk1 == pk2 && h1 == h2 && id1 == id2
  {
    var info := SealingInfo(h1, id1);
    assert info == SealingInfo(h2, id2);
    assert h1 == info[..MDSIZE] == h2;
    assert id1 == info[MDSIZE..] == id2;
  }

  /**
   * Determinism: for any deterministic `kdf`, two key stores holding the
   * same private key derive the same key for the same identifier and
   * measurement, whatever else they hold.
   */
  lemma SealingKeyDeterministic(kdf: Kdf, a: KeyStore, b: KeyStore, keyIdent: seq<Byte>, enclaveHash: seq<Byte>)
    requires |enclaveHash| == MDSIZE
    requires a.smPrivateKey[..] == b.smPrivateKey[..]
    ensures a.DeriveSealingKey(kdf, keyIdent, enclaveHash) == b.DeriveSealingKey(kdf, keyIdent, enclaveHash)
  {
  }

  /**
   * After `sm_copy_key`, sealing keys are derived from the boot ROM's secret
   * key.
   */
  lemma DerivesFromRomSecret(kdf: Kdf, store: KeyStore, rom: KeyMaterial, keyIdent: seq<Byte>, enclaveHash: seq<Byte>)
    requires |enclaveHash| == MDSIZE
    requires store.Contents() == rom
    ensures store.DeriveSealingKey(kdf, keyIdent, enclaveHash) == kdf(SealingKdfCall(rom.privateKey, keyIdent, enclaveHash))
  {
  }
}
