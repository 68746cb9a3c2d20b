/** The `WasmSecp256k1` facade (src/api/secp256k1.ts): fixed scratch regions
    reserved once, inputs copied in, exports called, results sliced out, and
    the private key and keypair regions overwritten by a `finally` on every
    way out of `with_keypair`. Each operation is a function from one machine
    state to the next (its specification) and a method of the facade class
    that performs it on the shared heap. */
module Secp256k1 {
  import opened Host
  import opened Memory
  import opened Abi
  import opened RuntimeShim
  import opened Wasm

  const RANDOMIZE_FAILED: seq<byte> := Ascii("Failed to randomize context")
  const SK_TO_PK_INVALID: seq<byte> := Ascii("sk_to_pk: Invalid private key")
  const SIGN_INVALID: seq<byte> := Ascii("BIP-340 sign: Invalid private key")
  const VERIFY_INVALID_PK: seq<byte> := Ascii("BIP340 verify: Invalid public key")

  /** The shim tag this facade passes to `emsimp`, with its ": ". */
  const TAG: seq<byte> := Ascii("wasm-secp256k1") + Ascii(": ")

  /** What the private-key and keypair regions are overwritten with. */
  const SK_WIPE: byte := 1
  const KEYPAIR_WIPE: byte := 2

  /** The scratch addresses, in the order they are allocated. */
  datatype Layout = Layout(sk: nat, ent: nat, seed: nat, msgHash: nat, pubkeyScratch: nat,
                           sigScratch: nat, keypair: nat, xonlyPubkey: nat, ctx: nat)
  {
    function SkRegion(): Region { Region(sk, PRIVATE_KEY) }
    function EntRegion(): Region { Region(ent, NONCE_ENTROPY) }
    function SeedRegion(): Region { Region(seed, RANDOM_SEED) }
    function MsgHashRegion(): Region { Region(msgHash, MSG_HASH) }
    function PubkeyScratchRegion(): Region { Region(pubkeyScratch, XONLY_PUBKEY) }
    function SigScratchRegion(): Region { Region(sigScratch, BIP340_SIG) }
    function KeypairRegion(): Region { Region(keypair, KEYPAIR_LIB) }
    function XonlyPubkeyRegion(): Region { Region(xonlyPubkey, XONLY_KEY_LIB) }
    function CtxRegion(contextSize: nat): Region { Region(ctx, contextSize) }

    /** Each region ends where the next one may start, and the context ends
        inside a heap of `size` bytes. */
    predicate Valid(contextSize: nat, size: nat)
    {
      && sk + PRIVATE_KEY <= ent && ent + NONCE_ENTROPY <= seed && seed + RANDOM_SEED <= msgHash
      && msgHash + MSG_HASH <= pubkeyScratch && pubkeyScratch + XONLY_PUBKEY <= sigScratch
      && sigScratch + BIP340_SIG <= keypair && keypair + KEYPAIR_LIB <= xonlyPubkey
      && xonlyPubkey + XONLY_KEY_LIB <= ctx && ctx + contextSize <= size
    }

    function Regions(contextSize: nat): seq<Region>
    {
      [SkRegion(), EntRegion(), SeedRegion(), MsgHashRegion(), PubkeyScratchRegion(),
       SigScratchRegion(), KeypairRegion(), XonlyPubkeyRegion(), CtxRegion(contextSize)]
    }
  }

  /** The layout the allocator produces from break `base`. */
  function Consecutive(base: nat): (l: Layout)
    ensures l.sk == base
  {
    Layout(base, base + 32, base + 64, base + 96, base + 128, base + 160, base + 224, base + 320, base + 384)
  }

  /** The regions are pairwise disjoint and inside the heap. */
  lemma LayoutDisjoint(l: Layout, contextSize: nat, size: nat)
    requires l.Valid(contextSize, size)
    ensures forall i, j :: 0 <= i < j < |l.Regions(contextSize)| ==>
      l.Regions(contextSize)[i].Disjoint(l.Regions(contextSize)[j])
    ensures forall i :: 0 <= i < |l.Regions(contextSize)| ==> l.Regions(contextSize)[i].Within(size)
  {
  }

  /** The allocator's layout is a valid one whenever it fits. */
  lemma ConsecutiveValid(base: nat, contextSize: nat, size: nat)
    requires base + 384 + contextSize <= size
    ensures Consecutive(base).Valid(contextSize, size)
  {
  }

  // ------------------------------------------------------------ specification

  /** The two callbacks the facade hands to `with_keypair`. */
  datatype Use = XonlyPub | Sign

  function UseStep(p: Primitives, tag: seq<byte>, l: Layout, m: Machine, u: Use): (s: Step<Bit>)
    requires l.Valid(p.contextSize, |m.mem|)
    ensures |s.m.mem| == |m.mem| && s.m.brk == m.brk
  {
    match u
    case XonlyPub => KeypairXonlyPubStep(p, tag, m, l.xonlyPubkey, l.keypair)
    case Sign => SchnorrsigSign32Step(p, tag, m, l.sigScratch, l.msgHash, l.keypair, l.ent)
  }

  /** The region a callback writes. */
  function UseRegion(l: Layout, u: Use): Region
  {
    match u
    case XonlyPub => l.XonlyPubkeyRegion()
    case Sign => l.SigScratchRegion()
  }

  /** The `finally` of `with_keypair`. */
  function Wiped(m: Machine, l: Layout): (r: Machine)
    requires l.SkRegion().Within(|m.mem|) && l.KeypairRegion().Within(|m.mem|)
    ensures |r.mem| == |m.mem| && r.log == m.log && r.brk == m.brk
  {
    m.(mem := Fill(Fill(m.mem, l.SkRegion(), SK_WIPE), l.KeypairRegion(), KEYPAIR_WIPE))
  }

  /** `with_keypair(sk, f_use)`: copy the key in, create the keypair (its
      result is not looked at), run the callback unless keypair creation
      trapped, and wipe both regions whatever happened. */
  function WithKeypairStep(p: Primitives, tag: seq<byte>, l: Layout, m: Machine, sk: Bytes32, u: Use): (s: Step<Bit>)
    requires l.Valid(p.contextSize, |m.mem|)
    ensures |s.m.mem| == |m.mem| && s.m.brk == m.brk
  {
    var copied := Wrote(m, l.sk, sk);
    var created := KeypairCreateStep(p, tag, copied, l.keypair, l.sk);
    var used := if created.out.Throw? then created else UseStep(p, tag, l, created.m, u);
    Step(used.out, Wiped(used.m, l))
  }

  /** `randomize_context()`: the seed goes into its region, then the context
      is randomized; anything but 1 throws. */
  function RandomizeStep(p: Primitives, tag: seq<byte>, l: Layout, m: Machine, seed: Bytes32): (s: Step<()>)
    requires l.Valid(p.contextSize, |m.mem|)
    ensures |s.m.mem| == |m.mem| && s.m.brk == m.brk
  {
    var placed := Wrote(m, l.seed, seed);
    var c := ContextRandomizeStep(p, tag, placed, l.ctx, l.seed);
    if c.out.Throw? then Rethrow(c)
    else if c.out.value != SUCCESS then Step(Throw(RANDOMIZE_FAILED), c.m)
    else Step(Return(()), c.m)
  }

  /** `get_public_key(sk)`. */
  function GetPublicKeyStep(p: Primitives, tag: seq<byte>, l: Layout, m: Machine, seed: Bytes32, sk: Bytes32): (s: Step<Bytes32>)
    requires l.Valid(p.contextSize, |m.mem|)
    ensures |s.m.mem| == |m.mem| && s.m.brk == m.brk
  {
    var rnd := RandomizeStep(p, tag, l, m, seed);
    if rnd.out.Throw? then Rethrow(rnd) else PublicKeyStep(p, tag, l, rnd.m, sk)
  }

  /** What `get_public_key` does once the context is randomized. */
  function PublicKeyStep(p: Primitives, tag: seq<byte>, l: Layout, m: Machine, sk: Bytes32): (s: Step<Bytes32>)
    requires l.Valid(p.contextSize, |m.mem|)
    ensures |s.m.mem| == |m.mem| && s.m.brk == m.brk
  {
    var w := WithKeypairStep(p, tag, l, m, sk, XonlyPub);
    if w.out.Throw? then Rethrow(w)
    else if w.out.value != SUCCESS then Fail<Bytes32>(SK_TO_PK_INVALID, w.m) else
    var ser := XonlyPubkeySerializeStep(p, tag, w.m, l.pubkeyScratch, l.xonlyPubkey);
    if ser.out.Throw? then Rethrow(ser)
    else Step(Return(ser.m.mem[l.pubkeyScratch..l.pubkeyScratch + 32]), ser.m)
  }

  /** `sign(sk, hash, ent)`, with `ent` already defaulted. */
  function SignStep(p: Primitives, tag: seq<byte>, l: Layout, m: Machine, seed: Bytes32, sk: Bytes32, hash: Bytes32, ent: Bytes32): (s: Step<Bytes64>)
    requires l.Valid(p.contextSize, |m.mem|)
    ensures |s.m.mem| == |m.mem| && s.m.brk == m.brk
  {
    var rnd := RandomizeStep(p, tag, l, m, seed);
    if rnd.out.Throw? then Rethrow(rnd) else SignedStep(p, tag, l, rnd.m, sk, hash, ent)
  }

  /** What `sign` does once the context is randomized. */
  function SignedStep(p: Primitives, tag: seq<byte>, l: Layout, m: Machine, sk: Bytes32, hash: Bytes32, ent: Bytes32): (s: Step<Bytes64>)
    requires l.Valid(p.contextSize, |m.mem|)
    ensures |s.m.mem| == |m.mem| && s.m.brk == m.brk
  {
    var placed := Wrote(Wrote(m, l.msgHash, hash), l.ent, ent);
    var w := WithKeypairStep(p, tag, l, placed, sk, Sign);
    if w.out.Throw? then Rethrow(w)
    else if w.out.value != SUCCESS then Step(Throw(SIGN_INVALID), w.m)
    else Step(Return(w.m.mem[l.sigScratch..l.sigScratch + 64]), w.m)
  }

  /** `verify(signature, hash, pk)`. */
  function VerifyStep(p: Primitives, tag: seq<byte>, l: Layout, m: Machine, sig: Bytes64, hash: Bytes32, pk: Bytes32): (s: Step<bool>)
    requires l.Valid(p.contextSize, |m.mem|)
    ensures |s.m.mem| == |m.mem| && s.m.brk == m.brk
  {
    var placed := Wrote(Wrote(Wrote(m, l.sigScratch, sig), l.msgHash, hash), l.pubkeyScratch, pk);
    var parsed := XonlyPubkeyParseStep(p, tag, placed, l.xonlyPubkey, l.pubkeyScratch);
    if parsed.out.Throw? then Rethrow(parsed)
    else if parsed.out.value != SUCCESS then Step(Throw(VERIFY_INVALID_PK), parsed.m) else
    var v := SchnorrsigVerifyStep(p, tag, parsed.m, l.sigScratch, l.msgHash, MSG_HASH, l.xonlyPubkey);
    if v.out.Throw? then Rethrow(v)
    else Step(Return(v.out.value == SUCCESS), v.m)
  }

  // ------------------------------------------------------------ properties

  /** The wipe leaves every byte outside the key and keypair regions alone. */
  lemma WipedKeeps(m: Machine, l: Layout, at: nat, n: nat)
    requires l.SkRegion().Within(|m.mem|) && l.KeypairRegion().Within(|m.mem|) && at + n <= |m.mem|
    requires Region(at, n).Disjoint(l.SkRegion()) && Region(at, n).Disjoint(l.KeypairRegion())
    ensures Wiped(m, l).mem[at..at + n] == m.mem[at..at + n]
  {
    var x, y := Wiped(m, l).mem[at..at + n], m.mem[at..at + n];
    assert forall i | 0 <= i < n :: x[i] == y[i];
  }

  /** Whether or not keypair creation or the callback trapped, and whatever
      the callback returned, afterwards every byte of the key region is 1 and
      every byte of the keypair region is 2. */
  lemma WithKeypairWipes(p: Primitives, tag: seq<byte>, l: Layout, m: Machine, sk: Bytes32, u: Use)
    requires l.Valid(p.contextSize, |m.mem|)
    ensures var s := WithKeypairStep(p, tag, l, m, sk, u);
      Filled(s.m.mem, l.SkRegion(), SK_WIPE) && Filled(s.m.mem, l.KeypairRegion(), KEYPAIR_WIPE)
  {
  }

  /** The callback runs whether `keypair_create` returned 0 or 1, sees the
      created keypair, and `with_keypair` returns exactly what it returns. */
  lemma WithKeypairForwards(p: Primitives, tag: seq<byte>, l: Layout, m: Machine, sk: Bytes32, u: Use)
    requires l.Valid(p.contextSize, |m.mem|)
    requires p.keypairCreate(sk).Done?
    ensures var created := Wrote(Wrote(m, l.sk, sk), l.keypair, p.keypairCreate(sk).value.1);
      WithKeypairStep(p, tag, l, m, sk, u).out == UseStep(p, tag, l, created, u).out
  {
    var copied := Wrote(m, l.sk, sk);
    assert copied.mem[l.sk..l.sk + 32] == sk;
  }

  /** `with_keypair` writes only the key, keypair and callback regions. */
  lemma WithKeypairFrame(p: Primitives, tag: seq<byte>, l: Layout, m: Machine, sk: Bytes32, u: Use)
    requires l.Valid(p.contextSize, |m.mem|)
    ensures forall i :: (0 <= i < |m.mem| && !l.SkRegion().Contains(i) && !l.KeypairRegion().Contains(i)
      && !UseRegion(l, u).Contains(i)) ==> WithKeypairStep(p, tag, l, m, sk, u).m.mem[i] == m.mem[i]
  {
  }

  /** What the x-only callback leaves: when `with_keypair` returns, the key
      and its x-only key exist and the latter sits in its region. */
  lemma WithKeypairXonly(p: Primitives, tag: seq<byte>, l: Layout, m: Machine, sk: Bytes32)
    requires l.Valid(p.contextSize, |m.mem|)
    ensures var w := WithKeypairStep(p, tag, l, m, sk, XonlyPub);
      w.out.Return? ==>
        && p.keypairCreate(sk).Done?
        && p.keypairXonlyPub(p.keypairCreate(sk).value.1).Done?
        && w.m.mem[l.xonlyPubkey..l.xonlyPubkey + 64] == p.keypairXonlyPub(p.keypairCreate(sk).value.1).value
  {
    var copied := Wrote(m, l.sk, sk);
    var created := KeypairCreateStep(p, tag, copied, l.keypair, l.sk);
    var w := WithKeypairStep(p, tag, l, m, sk, XonlyPub);
    if w.out.Return? {
      assert copied.mem[l.sk..l.sk + 32] == sk;
      var kp := p.keypairCreate(sk);
      assert kp.Done?;
      var used := KeypairXonlyPubStep(p, tag, created.m, l.xonlyPubkey, l.keypair);
      assert p.keypairXonlyPub(kp.value.1).Done?;
      WipedKeeps(used.m, l, l.xonlyPubkey, 64);
    }
  }

  /** What the signing callback leaves: when `with_keypair` returns, the key
      exists, signing did not trap, and the signature and its result code are
      the library's for the hash and entropy found in their regions. */
  lemma WithKeypairSign(p: Primitives, tag: seq<byte>, l: Layout, m: Machine, sk: Bytes32)
    requires l.Valid(p.contextSize, |m.mem|)
    ensures var w := WithKeypairStep(p, tag, l, m, sk, Sign);
      var hash := m.mem[l.msgHash..l.msgHash + 32];
      var ent := m.mem[l.ent..l.ent + 32];
      w.out.Return? ==>
        && p.keypairCreate(sk).Done?
        && p.schnorrsigSign32(hash, p.keypairCreate(sk).value.1, ent).Done?
        && w.out.value == p.schnorrsigSign32(hash, p.keypairCreate(sk).value.1, ent).value.0
        && w.m.mem[l.sigScratch..l.sigScratch + 64] == p.schnorrsigSign32(hash, p.keypairCreate(sk).value.1, ent).value.1
  {
    var copied := Wrote(m, l.sk, sk);
    var created := KeypairCreateStep(p, tag, copied, l.keypair, l.sk);
    var w := WithKeypairStep(p, tag, l, m, sk, Sign);
    if w.out.Return? {
      assert copied.mem[l.sk..l.sk + 32] == sk;
      KeepSlice(m.mem, copied.mem, l.SkRegion(), l.msgHash, 32);
      KeepSlice(m.mem, copied.mem, l.SkRegion(), l.ent, 32);
      KeepSlice(copied.mem, created.m.mem, l.KeypairRegion(), l.msgHash, 32);
      KeepSlice(copied.mem, created.m.mem, l.KeypairRegion(), l.ent, 32);
      var kp := p.keypairCreate(sk);
      assert kp.Done?;
      var used := SchnorrsigSign32Step(p, tag, created.m, l.sigScratch, l.msgHash, l.keypair, l.ent);
      WipedKeeps(used.m, l, l.sigScratch, 64);
    }
  }

  /** A failed randomization throws before the key is copied: the key region
      is as it was. */
  lemma RandomizeFirst(p: Primitives, tag: seq<byte>, l: Layout, m: Machine, seed: Bytes32, sk: Bytes32, hash: Bytes32, ent: Bytes32)
    requires l.Valid(p.contextSize, |m.mem|)
    requires RandomizeStep(p, tag, l, m, seed).out.Throw?
    ensures var g := GetPublicKeyStep(p, tag, l, m, seed, sk);
      g.out == Throw(RandomizeStep(p, tag, l, m, seed).out.message) && SameOn(m.mem, g.m.mem, l.SkRegion())
    ensures var s := SignStep(p, tag, l, m, seed, sk, hash, ent);
      s.out == Throw(RandomizeStep(p, tag, l, m, seed).out.message) && SameOn(m.mem, s.m.mem, l.SkRegion())
  {
  }

  /** Randomization throws "Failed to randomize context" exactly when the
      export returns 0, and the export's trap text when it traps. */
  lemma RandomizeOutcome(p: Primitives, tag: seq<byte>, l: Layout, m: Machine, seed: Bytes32)
    requires l.Valid(p.contextSize, |m.mem|)
    ensures var e := p.contextRandomize(m.mem[l.ctx..l.ctx + p.contextSize], seed);
      var s := RandomizeStep(p, tag, l, m, seed);
      && (e.Trap? ==> s.out == Throw(AbortMessage(tag, e.diagnostic)))
      && (e.Done? && e.value.0 == FAILURE ==> s.out == Throw(RANDOMIZE_FAILED))
      && (e.Done? && e.value.0 == SUCCESS ==> s.out == Return(()))
  {
    var placed := Wrote(m, l.seed, seed);
    KeepSlice(m.mem, placed.mem, l.SeedRegion(), l.ctx, p.contextSize);
  }

  /** After the randomization, a returned public key is the serialized
      x-only key of sk's keypair. */
  lemma PublicKeyValue(p: Primitives, tag: seq<byte>, l: Layout, m: Machine, sk: Bytes32)
    requires l.Valid(p.contextSize, |m.mem|)
    ensures var s := PublicKeyStep(p, tag, l, m, sk);
      s.out.Return? ==> PublicKeyOf(p, sk) == Some(s.out.value)
  {
    WithKeypairXonly(p, tag, l, m, sk);
  }

  /** A returned public key is the serialized x-only key of sk's keypair. */
  lemma GetPublicKeyValue(p: Primitives, tag: seq<byte>, l: Layout, m: Machine, seed: Bytes32, sk: Bytes32)
    requires l.Valid(p.contextSize, |m.mem|)
    ensures var s := GetPublicKeyStep(p, tag, l, m, seed, sk);
      s.out.Return? ==> PublicKeyOf(p, sk) == Some(s.out.value)
  {
    var rnd := RandomizeStep(p, tag, l, m, seed);
    if rnd.out.Return? {
      PublicKeyValue(p, tag, l, rnd.m, sk);
    }
  }

  /** Once randomization succeeded, `get_public_key` ends with the key and
      keypair regions wiped, whatever happened after. */
  lemma GetPublicKeyWipes(p: Primitives, tag: seq<byte>, l: Layout, m: Machine, seed: Bytes32, sk: Bytes32)
    requires l.Valid(p.contextSize, |m.mem|)
    requires RandomizeStep(p, tag, l, m, seed).out.Return?
    ensures var s := GetPublicKeyStep(p, tag, l, m, seed, sk);
      Filled(s.m.mem, l.SkRegion(), SK_WIPE) && Filled(s.m.mem, l.KeypairRegion(), KEYPAIR_WIPE)
  {
    var rnd := RandomizeStep(p, tag, l, m, seed);
    var w := WithKeypairStep(p, tag, l, rnd.m, sk, XonlyPub);
    WithKeypairWipes(p, tag, l, rnd.m, sk, XonlyPub);
    if w.out.Return? && w.out.value == SUCCESS {
      var ser := XonlyPubkeySerializeStep(p, tag, w.m, l.pubkeyScratch, l.xonlyPubkey);
      KeepFilled(w.m.mem, ser.m.mem, l.PubkeyScratchRegion(), l.SkRegion(), SK_WIPE);
      KeepFilled(w.m.mem, ser.m.mem, l.PubkeyScratchRegion(), l.KeypairRegion(), KEYPAIR_WIPE);
    }
  }

  /** Every message an export's trap throws starts with the facade tag, so
      it is none of the facade's own messages. */
  lemma AbortIsNotOwn(d: seq<byte>)
    ensures var msg := AbortMessage(TAG, d);
      msg != RANDOMIZE_FAILED && msg != SK_TO_PK_INVALID && msg != SIGN_INVALID && msg != VERIFY_INVALID_PK
  {
    var msg := AbortMessage(TAG, d);
    assert msg[0] == TAG[0] == 'w' as int;
  }

  /** After the randomization, the "sk_to_pk" error is never thrown. */
  lemma PublicKeyNeverReportsInvalidKey(p: Primitives, l: Layout, m: Machine, sk: Bytes32)
    requires l.Valid(p.contextSize, |m.mem|)
    ensures PublicKeyStep(p, TAG, l, m, sk).out != Throw(SK_TO_PK_INVALID)
  {
    var copied := Wrote(m, l.sk, sk);
    assert copied.mem[l.sk..l.sk + 32] == sk;
    var kp := p.keypairCreate(sk);
    if kp.Trap? {
      AbortIsNotOwn(kp.diagnostic);
    } else {
      var created := KeypairCreateStep(p, TAG, copied, l.keypair, l.sk);
      var xk := p.keypairXonlyPub(created.m.mem[l.keypair..l.keypair + 96]);
      if xk.Trap? {
        AbortIsNotOwn(xk.diagnostic);
      } else {
        var w := WithKeypairStep(p, TAG, l, m, sk, XonlyPub);
        var ser := p.xonlyPubkeySerialize(w.m.mem[l.xonlyPubkey..l.xonlyPubkey + 64]);
        if ser.Trap? {
          AbortIsNotOwn(ser.diagnostic);
        }
      }
    }
  }

  /** The "sk_to_pk" error is never thrown: `keypair_xonly_pub` is documented
      to return 1 always, so an invalid key surfaces only as a trap of the
      library, with the shim's abort text. */
  lemma GetPublicKeyNeverReportsInvalidKey(p: Primitives, l: Layout, m: Machine, seed: Bytes32, sk: Bytes32)
    requires l.Valid(p.contextSize, |m.mem|)
    ensures GetPublicKeyStep(p, TAG, l, m, seed, sk).out != Throw(SK_TO_PK_INVALID)
  {
    var e := p.contextRandomize(m.mem[l.ctx..l.ctx + p.contextSize], seed);
    RandomizeOutcome(p, TAG, l, m, seed);
    if e.Trap? {
      AbortIsNotOwn(e.diagnostic);
    }
    var rnd := RandomizeStep(p, TAG, l, m, seed);
    if rnd.out.Return? {
      PublicKeyNeverReportsInvalidKey(p, l, rnd.m, sk);
    }
  }

  /** After the randomization, a returned signature is the Schnorr
      signature of hash under sk with the given entropy. */
  lemma SignedValue(p: Primitives, tag: seq<byte>, l: Layout, m: Machine, sk: Bytes32, hash: Bytes32, ent: Bytes32)
    requires l.Valid(p.contextSize, |m.mem|)
    ensures var s := SignedStep(p, tag, l, m, sk, hash, ent);
      s.out.Return? ==> SignatureOf(p, sk, hash, ent) == Some(s.out.value)
  {
    var h := Wrote(m, l.msgHash, hash);
    var placed := Wrote(h, l.ent, ent);
    KeepSlice(h.mem, placed.mem, l.EntRegion(), l.msgHash, 32);
    WithKeypairSign(p, tag, l, placed, sk);
  }

  /** A returned signature is the Schnorr signature of hash under sk with the
      given entropy. */
  lemma SignValue(p: Primitives, tag: seq<byte>, l: Layout, m: Machine, seed: Bytes32, sk: Bytes32, hash: Bytes32, ent: Bytes32)
    requires l.Valid(p.contextSize, |m.mem|)
    ensures var s := SignStep(p, tag, l, m, seed, sk, hash, ent);
      s.out.Return? ==> SignatureOf(p, sk, hash, ent) == Some(s.out.value)
  {
    var rnd := RandomizeStep(p, tag, l, m, seed);
    if rnd.out.Return? {
      SignedValue(p, tag, l, rnd.m, sk, hash, ent);
    }
  }

  /** Once randomization succeeded, `sign` ends with the key and keypair
      regions wiped, whatever happened after. */
  lemma SignWipes(p: Primitives, tag: seq<byte>, l: Layout, m: Machine, seed: Bytes32, sk: Bytes32, hash: Bytes32, ent: Bytes32)
    requires l.Valid(p.contextSize, |m.mem|)
    requires RandomizeStep(p, tag, l, m, seed).out.Return?
    ensures var s := SignStep(p, tag, l, m, seed, sk, hash, ent);
      Filled(s.m.mem, l.SkRegion(), SK_WIPE) && Filled(s.m.mem, l.KeypairRegion(), KEYPAIR_WIPE)
  {
    var rnd := RandomizeStep(p, tag, l, m, seed);
    var placed := Wrote(Wrote(rnd.m, l.msgHash, hash), l.ent, ent);
    WithKeypairWipes(p, tag, l, placed, sk, Sign);
  }

  /** `verify` throws the invalid-public-key error exactly when parsing
      returns 0; otherwise it answers whether the library accepts the
      signature over the 32-byte hash for the parsed key. */
  lemma VerifyOutcome(p: Primitives, l: Layout, m: Machine, sig: Bytes64, hash: Bytes32, pk: Bytes32)
    requires l.Valid(p.contextSize, |m.mem|)
    requires p.xonlyPubkeyParse(pk).Done?
    ensures var s := VerifyStep(p, TAG, l, m, sig, hash, pk);
      var parsed := p.xonlyPubkeyParse(pk).value;
      && (parsed.0 == FAILURE <==> s.out == Throw(VERIFY_INVALID_PK))
      && (parsed.0 == SUCCESS && p.schnorrsigVerify(sig, hash, parsed.1).Done? ==>
            s.out == Return(p.schnorrsigVerify(sig, hash, parsed.1).value == SUCCESS))
  {
    var s1 := Wrote(m, l.sigScratch, sig);
    var s2 := Wrote(s1, l.msgHash, hash);
    var placed := Wrote(s2, l.pubkeyScratch, pk);
    KeepSlice(s1.mem, s2.mem, l.MsgHashRegion(), l.sigScratch, 64);
    KeepSlice(s2.mem, placed.mem, l.PubkeyScratchRegion(), l.sigScratch, 64);
    KeepSlice(s2.mem, placed.mem, l.PubkeyScratchRegion(), l.msgHash, 32);
    var parsedStep := XonlyPubkeyParseStep(p, TAG, placed, l.xonlyPubkey, l.pubkeyScratch);
    KeepSlice(placed.mem, parsedStep.m.mem, l.XonlyPubkeyRegion(), l.sigScratch, 64);
    KeepSlice(placed.mem, parsedStep.m.mem, l.XonlyPubkeyRegion(), l.msgHash, 32);
    var parsed := p.xonlyPubkeyParse(pk).value;
    if parsed.0 == SUCCESS {
      var v := p.schnorrsigVerify(sig, hash, parsed.1);
      if v.Trap? {
        AbortIsNotOwn(v.diagnostic);
      }
    }
  }

  /** `verify` leaves the key, keypair, seed and entropy regions, the context
      and the allocator alone: it writes only the signature, hash and pubkey
      scratch regions and the parsed key. */
  lemma VerifyFrame(p: Primitives, tag: seq<byte>, l: Layout, m: Machine, sig: Bytes64, hash: Bytes32, pk: Bytes32)
    requires l.Valid(p.contextSize, |m.mem|)
    ensures var s := VerifyStep(p, tag, l, m, sig, hash, pk);
      forall i :: (0 <= i < |m.mem| && !l.SigScratchRegion().Contains(i) && !l.MsgHashRegion().Contains(i)
        && !l.PubkeyScratchRegion().Contains(i) && !l.XonlyPubkeyRegion().Contains(i)) ==> s.m.mem[i] == m.mem[i]
    ensures VerifyStep(p, tag, l, m, sig, hash, pk).m.brk == m.brk
  {
    var s1 := Wrote(m, l.sigScratch, sig);
    var s2 := Wrote(s1, l.msgHash, hash);
    var placed := Wrote(s2, l.pubkeyScratch, pk);
    var parsedStep := XonlyPubkeyParseStep(p, tag, placed, l.xonlyPubkey, l.pubkeyScratch);
    assert OnlyWrites(placed.mem, parsedStep.m.mem, l.XonlyPubkeyRegion());
  }

  // ------------------------------------------------------------ the facade

  class WasmSecp256k1 {
    const wasm: Module
    const layout: Layout

    ghost predicate Valid()
      reads this, wasm, wasm.env
    {
      wasm.Valid() && wasm.env.tag == TAG && layout.Valid(wasm.prims.contextSize, wasm.env.heap.Length)
    }

    constructor (w: Module, l: Layout)
      requires w.Valid() && w.env.tag == TAG && l.Valid(w.prims.contextSize, w.env.heap.Length)
      ensures wasm == w && layout == l && Valid()
    {
      wasm := w;
      layout := l;
    }

    /** Construction: a shim tagged "wasm-secp256k1" bound to `memory`, an
      instance whose allocator starts at `base` once `init()` has run, the
      eight scratch regions in order, then one context for signing and
      verification. Running out of heap throws the shim's resize error. */
    static method Instantiate(p: Primitives, memory: array<byte>, base: nat) returns (r: Outcome<WasmSecp256k1>)
      requires memory.Length % 4 == 0 && base <= memory.Length
      modifies memory
      ensures r.Return? <==> base + 384 + p.contextSize <= memory.Length
      ensures r.Return? ==> && fresh(r.value) && r.value.Valid() && r.value.layout == Consecutive(base)
                            && r.value.wasm.env.heap == memory && r.value.wasm.brk == base + 384 + p.contextSize
      ensures r.Throw? ==> r.message == TAG + Ascii("Out of memory")
    {
      var shim := new Shim.Emsimp(Ascii("wasm-secp256k1"));
      shim.Bind(memory);
      var w := new Module(shim, p, base);
      assert w.env.tag == TAG;
      var keys := w.Take4(PRIVATE_KEY, NONCE_ENTROPY, RANDOM_SEED, MSG_HASH);
      if keys.Throw? { return Throw(keys.message); }
      var scratch := w.Take4(XONLY_PUBKEY, BIP340_SIG, KEYPAIR_LIB, XONLY_KEY_LIB);
      if scratch.Throw? { return Throw(scratch.message); }
      var ctx := w.ContextCreate(CONTEXT_SIGN_VERIFY);
      if ctx.Throw? { return Throw(ctx.message); }
      var l := Layout(keys.value.0, keys.value.1, keys.value.2, keys.value.3,
                      scratch.value.0, scratch.value.1, scratch.value.2, scratch.value.3, ctx.value);
      var facade := new WasmSecp256k1(w, l);
      r := Return(facade);
    }

    /** Copies the hash and the entropy into their regions. */
    method PlaceSignInputs(hash: Bytes32, ent: Bytes32)
      requires Valid()
      modifies wasm.env.heap
      ensures Valid() && wasm.State() == Wrote(Wrote(old(wasm.State()), layout.msgHash, hash), layout.ent, ent)
    {
      wasm.Store(layout.msgHash, hash);
      wasm.Store(layout.ent, ent);
    }

    /** Copies the signature, the hash and the public key into their regions. */
    method PlaceVerifyInputs(sig: Bytes64, hash: Bytes32, pk: Bytes32)
      requires Valid()
      modifies wasm.env.heap
      ensures Valid()
      ensures wasm.State() == Wrote(Wrote(Wrote(old(wasm.State()), layout.sigScratch, sig), layout.msgHash, hash), layout.pubkeyScratch, pk)
    {
      wasm.Store(layout.sigScratch, sig);
      wasm.Store(layout.msgHash, hash);
      wasm.Store(layout.pubkeyScratch, pk);
    }

    /** `randomize_context()` with the 32 random seed bytes as input. */
    method RandomizeContext(seed: Bytes32) returns (r: Outcome<()>)
      requires Valid()
      modifies wasm.env, wasm.env.heap
      ensures Valid() && wasm.env.heap == old(wasm.env.heap)
      ensures Step(r, wasm.State()) == RandomizeStep(wasm.prims, TAG, layout, old(wasm.State()), seed)
    {
      wasm.Store(layout.seed, seed);
      var c := wasm.ContextRandomize(layout.ctx, layout.seed);
      if c.Throw? {
        r := Throw(c.message);
      } else if c.value != SUCCESS {
        r := Throw(RANDOMIZE_FAILED);
      } else {
        r := Return(());
      }
    }

    /** The callback of `with_keypair`. */
    method RunUse(u: Use) returns (r: Outcome<Bit>)
      requires Valid()
      modifies wasm.env, wasm.env.heap
      ensures Valid() && wasm.env.heap == old(wasm.env.heap)
      ensures Step(r, wasm.State()) == UseStep(wasm.prims, TAG, layout, old(wasm.State()), u)
    {
      match u
      case XonlyPub =>
        r := wasm.KeypairXonlyPub(layout.xonlyPubkey, layout.keypair);
      case Sign =>
        r := wasm.SchnorrsigSign32(layout.sigScratch, layout.msgHash, layout.keypair, layout.ent);
    }

    /** `with_keypair(sk, f_use)`: the body stops at the first exception;
      the wipe runs after it in every case. */
    method WithKeypair(sk: Bytes32, u: Use) returns (r: Outcome<Bit>)
      requires Valid()
      modifies wasm.env, wasm.env.heap
      ensures Valid() && wasm.env.heap == old(wasm.env.heap)
      ensures Step(r, wasm.State()) == WithKeypairStep(wasm.prims, TAG, layout, old(wasm.State()), sk, u)
    {
      // try
      wasm.Store(layout.sk, sk);
      var created := wasm.KeypairCreate(layout.keypair, layout.sk);
      if created.Throw? {
        r := Throw(created.message);
      } else {
        r := RunUse(u);
      }
      // finally
      wasm.FillRegion(layout.SkRegion(), SK_WIPE);
      wasm.FillRegion(layout.KeypairRegion(), KEYPAIR_WIPE);
    }

    /** `get_public_key(sk)`, with the seed for the randomization as input. */
    method GetPublicKey(seed: Bytes32, sk: Bytes32) returns (r: Outcome<Bytes32>)
      requires Valid()
      modifies wasm.env, wasm.env.heap
      ensures Valid() && wasm.env.heap == old(wasm.env.heap)
      ensures Step(r, wasm.State()) == GetPublicKeyStep(wasm.prims, TAG, layout, old(wasm.State()), seed, sk)
    {
      var rnd := RandomizeContext(seed);
      if rnd.Throw? {
        return Throw(rnd.message);
      }
      r := PublicKey(sk);
    }

    /** The part of `get_public_key` after the randomization. */
    method PublicKey(sk: Bytes32) returns (r: Outcome<Bytes32>)
      requires Valid()
      modifies wasm.env, wasm.env.heap
      ensures Valid() && wasm.env.heap == old(wasm.env.heap)
      ensures Step(r, wasm.State()) == PublicKeyStep(wasm.prims, TAG, layout, old(wasm.State()), sk)
    {
      var w := WithKeypair(sk, XonlyPub);
      if w.Throw? {
        return Throw(w.message);
      }
      if w.value != SUCCESS {
        return Throw(SK_TO_PK_INVALID);
      }
      var ser := wasm.XonlyPubkeySerialize(layout.pubkeyScratch, layout.xonlyPubkey);
      if ser.Throw? {
        return Throw(ser.message);
      }
      var key := wasm.Slice(layout.pubkeyScratch, XONLY_PUBKEY);
      r := Return(key);
    }

    /** `sign(sk, hash, ent)`: a missing `ent` defaults to `random`. */
    method Sign(seed: Bytes32, sk: Bytes32, hash: Bytes32, ent: Option<Bytes32>, random: Bytes32) returns (r: Outcome<Bytes64>)
      requires Valid()
      modifies wasm.env, wasm.env.heap
      ensures Valid() && wasm.env.heap == old(wasm.env.heap)
      ensures var e := if ent.Some? then ent.value else random;
        Step(r, wasm.State()) == SignStep(wasm.prims, TAG, layout, old(wasm.State()), seed, sk, hash, e)
    {
      var e := if ent.Some? then ent.value else random;
      var rnd := RandomizeContext(seed);
      if rnd.Throw? {
        return Throw(rnd.message);
      }
      r := Signed(sk, hash, e);
    }

    /** The part of `sign` after the randomization. */
    method Signed(sk: Bytes32, hash: Bytes32, ent: Bytes32) returns (r: Outcome<Bytes64>)
      requires Valid()
      modifies wasm.env, wasm.env.heap
      ensures Valid() && wasm.env.heap == old(wasm.env.heap)
      ensures Step(r, wasm.State()) == SignedStep(wasm.prims, TAG, layout, old(wasm.State()), sk, hash, ent)
    {
      PlaceSignInputs(hash, ent);
      var w := WithKeypair(sk, Use.Sign);
      if w.Throw? {
        return Throw(w.message);
      }
      if w.value != SUCCESS {
        return Throw(SIGN_INVALID);
      }
      var out := wasm.Slice(layout.sigScratch, BIP340_SIG);
      r := Return(out);
    }

    /** `verify(signature, hash, pk)`. */
    method Verify(sig: Bytes64, hash: Bytes32, pk: Bytes32) returns (r: Outcome<bool>)
      requires Valid()
      modifies wasm.env, wasm.env.heap
      ensures Valid() && wasm.env.heap == old(wasm.env.heap)
      ensures Step(r, wasm.State()) == VerifyStep(wasm.prims, TAG, layout, old(wasm.State()), sig, hash, pk)
    {
      PlaceVerifyInputs(sig, hash, pk);
      var parsed := wasm.XonlyPubkeyParse(layout.xonlyPubkey, layout.pubkeyScratch);
      if parsed.Throw? {
        return Throw(parsed.message);
      }
      if parsed.value != SUCCESS {
        return Throw(VERIFY_INVALID_PK);
      }
      var v := wasm.SchnorrsigVerify(layout.sigScratch, layout.msgHash, MSG_HASH, layout.xonlyPubkey);
      if v.Throw? {
        return Throw(v.message);
      }
      r := Return(v.value == SUCCESS);
    }
  }
}
