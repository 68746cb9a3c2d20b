/** The binary interface between the facades and the compiled library: the
    byte lengths of the regions the facades reserve, the context flags and
    the 0/1 result codes. */
module Abi {

  // ------------------------------------------------------------ byte lengths

  const PRIVATE_KEY: nat := 32
  /** `secp256k1_keypair` is an opaque 96-byte struct. */
  const KEYPAIR_LIB: nat := 96
  /** `secp256k1_xonly_pubkey` is an opaque 64-byte struct. */
  const XONLY_KEY_LIB: nat := 64
  const BIP340_SIG: nat := 64
  /** A serialized x-only public key. */
  const XONLY_PUBKEY: nat := 32
  const MSG_HASH: nat := 32
  const NONCE_ENTROPY: nat := 32
  /** `secp256k1_sha256`: eight 32-bit words of state, a 64-byte block
      buffer and a 64-bit byte counter. */
  const SHA256_LIB: nat := 4 * 8 + 64 + 8
  /** The seed a context randomization reads. */
  const RANDOM_SEED: nat := 32

  lemma Sha256StateSize()
    ensures SHA256_LIB == 104
  {
  }

  // ------------------------------------------------------------ context flags

  /** The low 8 bits of a flag say what it is for. */
  const FLAGS_TYPE_MASK: bv32 := (1 << 8) - 1
  const FLAGS_TYPE_CONTEXT: bv32 := 1 << 0
  const FLAGS_TYPE_COMPRESSION: bv32 := 1 << 1
  /** The higher bits carry the data. */
  const FLAGS_BIT_CONTEXT_VERIFY: bv32 := 1 << 8
  const FLAGS_BIT_CONTEXT_SIGN: bv32 := 1 << 9
  const FLAGS_BIT_CONTEXT_DECLASSIFY: bv32 := 1 << 10

  const CONTEXT_NONE: bv32 := FLAGS_TYPE_CONTEXT | 0
  const CONTEXT_VERIFY: bv32 := FLAGS_TYPE_CONTEXT | FLAGS_BIT_CONTEXT_VERIFY
  const CONTEXT_SIGN: bv32 := FLAGS_TYPE_CONTEXT | FLAGS_BIT_CONTEXT_SIGN
  const CONTEXT_DECLASSIFY: bv32 := FLAGS_TYPE_CONTEXT | FLAGS_BIT_CONTEXT_DECLASSIFY

  /** The flags both facades create their one context with. */
  const CONTEXT_SIGN_VERIFY: bv32 := CONTEXT_SIGN | CONTEXT_VERIFY

  /** A context flag: its type bits say "context". */
  predicate IsContextFlag(f: bv32)
  {
    f & FLAGS_TYPE_MASK == FLAGS_TYPE_CONTEXT
  }

  /** Every context flag, and the facades' combination, is typed as a
      context flag and has bit 0 set; the combination is 1 | 256 | 512. */
  lemma ContextFlagsTyped()
    ensures IsContextFlag(CONTEXT_NONE) && IsContextFlag(CONTEXT_VERIFY)
    ensures IsContextFlag(CONTEXT_SIGN) && IsContextFlag(CONTEXT_DECLASSIFY)
    ensures IsContextFlag(CONTEXT_SIGN_VERIFY)
    ensures CONTEXT_SIGN_VERIFY as int == 769
    ensures CONTEXT_SIGN_VERIFY & FLAGS_BIT_CONTEXT_DECLASSIFY == 0
  {
  }

  /** The data bits of the context flags are pairwise distinct single bits. */
  lemma ContextBitsDistinct()
    ensures FLAGS_BIT_CONTEXT_VERIFY & FLAGS_BIT_CONTEXT_SIGN == 0
    ensures FLAGS_BIT_CONTEXT_SIGN & FLAGS_BIT_CONTEXT_DECLASSIFY == 0
    ensures FLAGS_BIT_CONTEXT_VERIFY & FLAGS_BIT_CONTEXT_DECLASSIFY == 0
    ensures (FLAGS_BIT_CONTEXT_VERIFY | FLAGS_BIT_CONTEXT_SIGN | FLAGS_BIT_CONTEXT_DECLASSIFY) & FLAGS_TYPE_MASK == 0
  {
  }

  // ------------------------------------------------------------ result codes

  /** A `BinaryResult`. */
  type Bit = x: int | 0 <= x <= 1

  const SUCCESS: Bit := 1
  const FAILURE: Bit := 0
}
