/** What the `NostrWasm` facade promises, stated over its specification
    functions: wiping on every path, the values it returns and writes into
    the event, the errors it raises, and what `verifyEvent` accepts. */
module NostrProperties {
  import opened Host
  import opened Memory
  import opened Abi
  import opened RuntimeShim
  import opened Wasm
  import opened Hex
  import opened EventJson
  import opened Nostr

  // ------------------------------------------------------------ messages

  /** The first byte of each message, which tells them apart: the shim's
      messages all start with the tag's 'n'. */
  lemma FirstBytes()
    ensures TAG[0] == 'n' as int && OFFSET_OUT_OF_BOUNDS[0] == 'o' as int
    ensures PUBKEY_FAILED[0] == 'f' as int && SIGN_FAILED[0] == 'f' as int
    ensures ID_INVALID[0] == 'i' as int && PUBKEY_INVALID[0] == 'p' as int && SIGNATURE_INVALID[0] == 's' as int
  {
  }

  /** A message the shim builds (an abort, or the heap that cannot grow)
      starts with the tag, so it is none of the facade's own messages. */
  lemma ShimIsNotOwn(d: seq<byte>, w: int)
    ensures var msg := AbortMessage(TAG, d);
      msg != PUBKEY_FAILED && msg != SIGN_FAILED && msg != ID_INVALID && msg != PUBKEY_INVALID && msg != SIGNATURE_INVALID
    ensures var msg := ResizeMessage(Flavour.Emsimp, TAG, w);
      msg != PUBKEY_FAILED && msg != SIGN_FAILED && msg != ID_INVALID && msg != PUBKEY_INVALID && msg != SIGNATURE_INVALID
  {
    FirstBytes();
    assert AbortMessage(TAG, d)[0] == TAG[0];
    assert ResizeMessage(Flavour.Emsimp, TAG, w)[0] == TAG[0];
  }

  // ------------------------------------------------------------ wiping

  /** The wipe sets every key byte to 1 and every keypair byte to 2. */
  lemma WipedFills(m: Machine, l: Layout, contextSize: nat)
    requires l.Valid(contextSize, |m.mem|)
    ensures Filled(Wiped(m, l).mem, l.SkRegion(), SK_WIPE)
    ensures Filled(Wiped(m, l).mem, l.KeypairRegion(), KEYPAIR_WIPE)
  {
  }

  /** The wipe leaves every byte outside the key and keypair regions alone. */
  lemma WipedKeeps(m: Machine, l: Layout, at: nat, n: nat)
    requires l.SkRegion().Within(|m.mem|) && l.KeypairRegion().Within(|m.mem|) && at + n <= |m.mem|
    requires Region(at, n).Disjoint(l.SkRegion()) && Region(at, n).Disjoint(l.KeypairRegion())
    ensures Wiped(m, l).mem[at..at + n] == m.mem[at..at + n]
  {
    var x, y := Wiped(m, l).mem[at..at + n], m.mem[at..at + n];
    assert forall i | 0 <= i < n :: x[i] == y[i];
  }

  /** `getPublicKey` ends with the key and keypair regions wiped on every
      path: a trap in any export, a failed check, or a returned key. */
  lemma GetPublicKeyWipes(p: Primitives, tag: seq<byte>, l: Layout, m: Machine, sk: Bytes32)
    requires Ready(p, l, m)
    ensures var s := GetPublicKeyStep(p, tag, l, m, sk);
      Filled(s.m.mem, l.SkRegion(), SK_WIPE) && Filled(s.m.mem, l.KeypairRegion(), KEYPAIR_WIPE)
  {
    var c := CreatedStep(p, tag, l, m, sk);
    var used := if c.out.Throw? then c else KeypairXonlyPubStep(p, tag, c.m, l.xonlyPubkey, l.keypair);
    WipedFills(used.m, l, p.contextSize);
    var w := XonlyStep(p, tag, l, m, sk);
    if w.out.Return? && w.out.value == SUCCESS {
      var ser := XonlyPubkeySerializeStep(p, tag, w.m, l.pubkeyScratch, l.xonlyPubkey);
      KeepFilled(w.m.mem, ser.m.mem, l.PubkeyScratchRegion(), l.SkRegion(), SK_WIPE);
      KeepFilled(w.m.mem, ser.m.mem, l.PubkeyScratchRegion(), l.KeypairRegion(), KEYPAIR_WIPE);
    }
  }

  /** `finalizeEvent` ends with the key and keypair regions wiped on every
      path, including a failed signature and a heap that cannot grow. */
  lemma FinalizeWipes(p: Primitives, tag: seq<byte>, l: Layout, m: Machine, e: EventData, sk: Bytes32,
                      entropy: Option<Bytes32>)
    requires Ready(p, l, m)
    ensures var s := FinalizeStep(p, tag, l, m, e, sk, entropy);
      Filled(s.step.m.mem, l.SkRegion(), SK_WIPE) && Filled(s.step.m.mem, l.KeypairRegion(), KEYPAIR_WIPE)
  {
    var body := FinalizeBodyStep(p, tag, l, m, e, sk, entropy);
    WipedFills(body.step.m, l, p.contextSize);
  }

  // ------------------------------------------------------------ stages

  /** `keypair_create` runs on the copied key: it returns exactly when the
      library does not trap, leaving the library's keypair in its region,
      and the entropy region is untouched. */
  lemma CreatedValue(p: Primitives, tag: seq<byte>, l: Layout, m: Machine, sk: Bytes32)
    requires Ready(p, l, m)
    ensures var c := CreatedStep(p, tag, l, m, sk);
      var kp := p.keypairCreate(sk);
      && (c.out.Return? <==> kp.Done?)
      && (kp.Done? ==> c.m.mem[l.keypair..l.keypair + 96] == kp.value.1)
      && c.m.mem[l.ent..l.ent + 32] == m.mem[l.ent..l.ent + 32] && |c.m.mem| == |m.mem|
  {
    var copied := Wrote(m, l.sk, sk);
    assert copied.mem[l.sk..l.sk + 32] == sk;
    var c := CreatedStep(p, tag, l, m, sk);
    KeepSlice(m.mem, copied.mem, l.SkRegion(), l.ent, 32);
    KeepSlice(copied.mem, c.m.mem, l.KeypairRegion(), l.ent, 32);
  }

  /** `with_keypair` around `keypair_xonly_pub`: it returns 1 exactly when
      neither keypair creation nor the x-only key traps, and then the x-only
      key of sk's keypair sits in its region. */
  lemma XonlyValue(p: Primitives, tag: seq<byte>, l: Layout, m: Machine, sk: Bytes32)
    requires Ready(p, l, m)
    ensures var w := XonlyStep(p, tag, l, m, sk);
      var kp := p.keypairCreate(sk);
      && (w.out.Return? <==> kp.Done? && p.keypairXonlyPub(kp.value.1).Done?)
      && (w.out.Return? ==> w.out.value == SUCCESS)
      && (w.out.Return? ==> kp.Done? && p.keypairXonlyPub(kp.value.1) == Done(w.m.mem[l.xonlyPubkey..l.xonlyPubkey + 64]))
  {
    CreatedValue(p, tag, l, m, sk);
    var c := CreatedStep(p, tag, l, m, sk);
    if c.out.Return? {
      var used := KeypairXonlyPubStep(p, tag, c.m, l.xonlyPubkey, l.keypair);
      WipedKeeps(used.m, l, l.xonlyPubkey, 64);
    }
  }

  /** `getPublicKey` returns exactly when every export it calls returns, and
      what it returns is the serialized x-only key of sk. */
  lemma GetPublicKeyValue(p: Primitives, tag: seq<byte>, l: Layout, m: Machine, sk: Bytes32)
    requires Ready(p, l, m)
    ensures var s := GetPublicKeyStep(p, tag, l, m, sk);
      && (s.out.Return? <==> PublicKeyOf(p, sk).Some?)
      && (s.out.Return? ==> s.out.value == PublicKeyOf(p, sk).value)
  {
    XonlyValue(p, tag, l, m, sk);
  }

  /** "failed to get pubkey from keypair" is never thrown: the x-only key
      export returns 1 whenever it returns, so a bad key surfaces only as a
      trap, whose message starts with the facade's tag. */
  lemma GetPublicKeyNeverReportsFailure(p: Primitives, l: Layout, m: Machine, sk: Bytes32)
    requires Ready(p, l, m)
    ensures GetPublicKeyStep(p, TAG, l, m, sk).out != Throw(PUBKEY_FAILED)
  {
    var copied := Wrote(m, l.sk, sk);
    var kp := p.keypairCreate(copied.mem[l.sk..l.sk + 32]);
    if kp.Trap? {
      ShimIsNotOwn(kp.diagnostic, 0);
    } else {
      var c := CreatedStep(p, TAG, l, m, sk);
      var xk := p.keypairXonlyPub(c.m.mem[l.keypair..l.keypair + 96]);
      if xk.Trap? {
        ShimIsNotOwn(xk.diagnostic, 0);
      } else {
        var w := XonlyStep(p, TAG, l, m, sk);
        var ser := p.xonlyPubkeySerialize(w.m.mem[l.xonlyPubkey..l.xonlyPubkey + 64]);
        if ser.Trap? {
          ShimIsNotOwn(ser.diagnostic, 0);
        }
      }
    }
  }

  /** The heap work of `compute_event_id` returns exactly when the message
      fits below the end of the heap; otherwise it throws the shim's
      out-of-memory error and changes nothing. */
  lemma DigestFits(p: Primitives, tag: seq<byte>, l: Layout, m: Machine, msg: seq<byte>)
    requires Ready(p, l, m)
    ensures var s := DigestStep(p, tag, l, m, msg);
      && (s.out.Return? <==> m.brk + |msg| <= |m.mem|)
      && (s.out.Throw? ==> s.out.message == ResizeMessage(Flavour.Emsimp, tag, m.brk + |msg|) && s.m == m)
  {
  }

  /** When it returns, it returns the SHA-256 digest of the message, which
      it also leaves in the message-hash region, and the message stays
      allocated right at the old break. */
  lemma DigestValue(p: Primitives, tag: seq<byte>, l: Layout, m: Machine, msg: seq<byte>)
    requires Ready(p, l, m)
    ensures var s := DigestStep(p, tag, l, m, msg);
      && (s.out.Return? ==> s.out.value == Digest(p, msg) && s.m.mem[l.msgHash..l.msgHash + 32] == s.out.value)
      && (s.out.Return? ==> s.m.brk == m.brk + |msg| && s.m.log == m.log && |s.m.mem| == |m.mem|)
      && (s.out.Return? ==> s.m.mem[m.brk..m.brk + |msg|] == msg)
  {
    if m.brk + |msg| <= |m.mem| {
      var a := MallocStep(Flavour.Emsimp, tag, m, |msg|);
      var written := Wrote(a.m, m.brk, msg);
      var initialized := Sha256InitializeStep(p, written, l.sha256);
      KeepSlice(written.mem, initialized.mem, l.Sha256Region(), m.brk, |msg|);
      var hashed := Sha256WriteStep(p, initialized, l.sha256, m.brk, |msg|);
      KeepSlice(initialized.mem, hashed.mem, l.Sha256Region(), m.brk, |msg|);
      var finalized := Sha256FinalizeStep(p, hashed, l.sha256, l.msgHash);
      KeepSlice(hashed.mem, finalized.mem, l.MsgHashRegion(), m.brk, |msg|);
    }
  }

  /** `compute_event_id`: it returns exactly when the message fits below the
      end of the heap, and then returns the SHA-256 digest of the message,
      which it also leaves in the message-hash region; the message stays
      allocated. Otherwise it throws the shim's out-of-memory error and
      changes nothing. */
  lemma ComputeEventIdOutcome(p: Primitives, tag: seq<byte>, l: Layout, m: Machine, f: Fields)
    requires Ready(p, l, m)
    ensures var msg := Message(f);
      var s := ComputeEventIdStep(p, tag, l, m, f);
      && (s.out.Return? <==> m.brk + |msg| <= |m.mem|)
      && (s.out.Throw? ==> s.out.message == ResizeMessage(Flavour.Emsimp, tag, m.brk + |msg|) && s.m == m)
      && (s.out.Return? ==> s.out.value == Digest(p, msg) && s.m.mem[l.msgHash..l.msgHash + 32] == s.out.value)
      && (s.out.Return? ==> s.m.brk == m.brk + |msg| && s.m.log == m.log && |s.m.mem| == |m.mem|)
      && (s.out.Return? ==> s.m.mem[m.brk..m.brk + |msg|] == msg)
  {
    DigestFits(p, tag, l, m, Message(f));
    DigestValue(p, tag, l, m, Message(f));
  }

  /** The heap work of `compute_event_id` leaves every byte below the old
      break alone except the SHA-256 state and the message hash. */
  lemma DigestKeeps(p: Primitives, tag: seq<byte>, l: Layout, m: Machine, msg: seq<byte>, at: nat, n: nat)
    requires Ready(p, l, m) && at + n <= m.brk && at + n <= |m.mem|
    requires Region(at, n).Disjoint(l.Sha256Region()) && Region(at, n).Disjoint(l.MsgHashRegion())
    ensures var s := DigestStep(p, tag, l, m, msg);
      s.m.mem[at..at + n] == m.mem[at..at + n]
  {
    if m.brk + |msg| <= |m.mem| {
      var a := MallocStep(Flavour.Emsimp, tag, m, |msg|);
      var written := Wrote(a.m, m.brk, msg);
      KeepSlice(a.m.mem, written.mem, Region(m.brk, |msg|), at, n);
      var initialized := Sha256InitializeStep(p, written, l.sha256);
      KeepSlice(written.mem, initialized.mem, l.Sha256Region(), at, n);
      var hashed := Sha256WriteStep(p, initialized, l.sha256, m.brk, |msg|);
      KeepSlice(initialized.mem, hashed.mem, l.Sha256Region(), at, n);
      var finalized := Sha256FinalizeStep(p, hashed, l.sha256, l.msgHash);
      KeepSlice(hashed.mem, finalized.mem, l.MsgHashRegion(), at, n);
    }
  }

  /** `compute_event_id` leaves every byte below the old break alone except
      the SHA-256 state and the message hash. */
  lemma ComputeEventIdKeeps(p: Primitives, tag: seq<byte>, l: Layout, m: Machine, f: Fields, at: nat, n: nat)
    requires Ready(p, l, m) && at + n <= m.brk && at + n <= |m.mem|
    requires Region(at, n).Disjoint(l.Sha256Region()) && Region(at, n).Disjoint(l.MsgHashRegion())
    ensures var s := ComputeEventIdStep(p, tag, l, m, f);
      s.m.mem[at..at + n] == m.mem[at..at + n]
  {
    DigestKeeps(p, tag, l, m, Message(f), at, n);
  }

  /** The key part of the `finalizeEvent` callback: it returns exactly when
      the x-only key of the keypair in its region, and its serialization, do
      not trap, and then returns that serialization; the keypair and entropy
      regions are left alone. */
  lemma KeyValue(p: Primitives, tag: seq<byte>, l: Layout, m: Machine)
    requires Ready(p, l, m)
    ensures var k := KeyStep(p, tag, l, m);
      var xk := p.keypairXonlyPub(m.mem[l.keypair..l.keypair + 96]);
      && (k.out.Return? <==> xk.Done? && p.xonlyPubkeySerialize(xk.value).Done?)
      && (k.out.Return? ==> k.out.value == p.xonlyPubkeySerialize(xk.value).value)
      && k.m.mem[l.keypair..l.keypair + 96] == m.mem[l.keypair..l.keypair + 96]
      && k.m.mem[l.ent..l.ent + 32] == m.mem[l.ent..l.ent + 32] && |k.m.mem| == |m.mem|
  {
    var xs := KeypairXonlyPubStep(p, tag, m, l.xonlyPubkey, l.keypair);
    KeepSlice(m.mem, xs.m.mem, l.XonlyPubkeyRegion(), l.keypair, 96);
    KeepSlice(m.mem, xs.m.mem, l.XonlyPubkeyRegion(), l.ent, 32);
    if xs.out.Return? {
      var ser := XonlyPubkeySerializeStep(p, tag, xs.m, l.pubkeyScratch, l.xonlyPubkey);
      KeepSlice(xs.m.mem, ser.m.mem, l.PubkeyScratchRegion(), l.keypair, 96);
      KeepSlice(xs.m.mem, ser.m.mem, l.PubkeyScratchRegion(), l.ent, 32);
    }
  }

  /** The signing part of the callback: the library signs the hash region
      with the keypair region and, as auxiliary randomness, `entropy` when
      it is copied in and the region's old contents otherwise. It returns
      exactly when signing returns 1, throws "failed to sign" when signing
      returns 0, and leaves the signature in its region. */
  lemma SignValue(p: Primitives, tag: seq<byte>, l: Layout, m: Machine, entropy: Option<Bytes32>)
    requires Ready(p, l, m)
    ensures var s := SignStep(p, tag, l, m, entropy);
      var ent := if entropy.Some? then entropy.value else m.mem[l.ent..l.ent + 32];
      var e := p.schnorrsigSign32(m.mem[l.msgHash..l.msgHash + 32], m.mem[l.keypair..l.keypair + 96], ent);
      && (s.out.Return? <==> e.Done? && e.value.0 == SUCCESS)
      && (e.Done? && e.value.0 == FAILURE ==> s.out == Throw(SIGN_FAILED))
      && (s.out.Return? ==> s.m.mem[l.sigScratch..l.sigScratch + 64] == e.value.1)
  {
    if entropy.Some? {
      var entered := Wrote(m, l.ent, entropy.value);
      KeepSlice(m.mem, entered.mem, l.EntRegion(), l.msgHash, 32);
      KeepSlice(m.mem, entered.mem, l.EntRegion(), l.keypair, 96);
    }
  }

  // ------------------------------------------------------------ finalizeEvent

  /** The serialized x-only key of a keypair, when no export traps. */
  function PairKey(p: Primitives, pair: Bytes96): Option<Bytes32>
  {
    var xk := p.keypairXonlyPub(pair);
    if xk.Trap? then None else
    var ser := p.xonlyPubkeySerialize(xk.value);
    if ser.Trap? then None else Some(ser.value)
  }

  /** The signature of hash with a keypair, when signing returns 1. */
  function PairSignature(p: Primitives, pair: Bytes96, hash: Bytes32, ent: Bytes32): Option<Bytes64>
  {
    var sig := p.schnorrsigSign32(hash, pair, ent);
    if sig.Trap? || sig.value.0 != SUCCESS then None else Some(sig.value.1)
  }

  /** The event with the pubkey pk filled in, when there is one. */
  function KeyedWith(e: EventData, pk: Option<Bytes32>): (k: EventData)
    ensures k.(pubkey := e.pubkey) == e
    ensures pk.Some? ==> k.pubkey == ToHex(pk.value)
  {
    if pk.Some? then e.(pubkey := ToHex(pk.value)) else e
  }

  /** The event with the pubkey of sk filled in, when sk has one. */
  function Keyed(p: Primitives, e: EventData, sk: Bytes32): EventData
  {
    KeyedWith(e, PublicKeyOf(p, sk))
  }

  /** The id an event commits to: the digest of its serialization. */
  function EventId(p: Primitives, e: EventData): Bytes32
  {
    Digest(p, Message(e.Committed()))
  }

  /** The event a signer with key sk and auxiliary randomness ent produces:
      pubkey, then the id of the event with that pubkey, then the signature
      of that id; none when the key or signature does not exist. */
  function Signed(p: Primitives, e: EventData, sk: Bytes32, ent: Bytes32): (r: Option<EventData>)
    ensures r.Some? ==> r.value.(pubkey := e.pubkey, id := e.id, sig := e.sig) == e
  {
    if PublicKeyOf(p, sk).None? then None else
    var keyed := Keyed(p, e, sk);
    var id := EventId(p, keyed);
    var sig := SignatureOf(p, sk, id, ent);
    if sig.None? then None else Some(keyed.(id := ToHex(id), sig := ToHex(sig.value)))
  }

  /** The signing part of the callback after the pubkey is set: the id is
      computed, and signing it with the keypair and entropy the machine holds
      returns exactly when that signature exists. */
  lemma SignedTailValue(p: Primitives, tag: seq<byte>, l: Layout, m: Machine, keyed: EventData,
                        entropy: Option<Bytes32>)
    requires Ready(p, l, m)
    ensures var id := ComputeEventIdStep(p, tag, l, m, keyed.Committed());
      var pair := m.mem[l.keypair..l.keypair + 96];
      var ent := if entropy.Some? then entropy.value else m.mem[l.ent..l.ent + 32];
      var d := EventId(p, keyed);
      && (id.out.Return? <==> m.brk + |Message(keyed.Committed())| <= |m.mem|)
      && (id.out.Return? ==> id.out.value == d)
      && (id.out.Return? ==>
            (SignStep(p, tag, l, id.m, entropy).out.Return? <==> PairSignature(p, pair, d, ent).Some?))
  {
    ComputeEventIdOutcome(p, tag, l, m, keyed.Committed());
    ComputeEventIdKeeps(p, tag, l, m, keyed.Committed(), l.keypair, 96);
    ComputeEventIdKeeps(p, tag, l, m, keyed.Committed(), l.ent, 32);
    var id := ComputeEventIdStep(p, tag, l, m, keyed.Committed());
    if id.out.Return? {
      SignOnHashed(p, tag, l, id.m, m.mem[l.keypair..l.keypair + 96], EventId(p, keyed), m.mem[l.ent..l.ent + 32], entropy);
    }
  }

  /** The same tail: a returned signature sits in its region, and a 0 from
      the signer throws "failed to sign". */
  lemma SignedTailSignature(p: Primitives, tag: seq<byte>, l: Layout, m: Machine, keyed: EventData,
                            entropy: Option<Bytes32>)
    requires Ready(p, l, m)
    ensures var id := ComputeEventIdStep(p, tag, l, m, keyed.Committed());
      var pair := m.mem[l.keypair..l.keypair + 96];
      var ent := if entropy.Some? then entropy.value else m.mem[l.ent..l.ent + 32];
      var d := EventId(p, keyed);
      id.out.Return? ==>
        var s := SignStep(p, tag, l, id.m, entropy);
        && (s.out.Return? ==> PairSignature(p, pair, d, ent) == Some(s.m.mem[l.sigScratch..l.sigScratch + 64]))
        && (p.schnorrsigSign32(d, pair, ent).Done? && p.schnorrsigSign32(d, pair, ent).value.0 == FAILURE ==>
              s.out == Throw(SIGN_FAILED))
  {
    ComputeEventIdOutcome(p, tag, l, m, keyed.Committed());
    ComputeEventIdKeeps(p, tag, l, m, keyed.Committed(), l.keypair, 96);
    ComputeEventIdKeeps(p, tag, l, m, keyed.Committed(), l.ent, 32);
    var id := ComputeEventIdStep(p, tag, l, m, keyed.Committed());
    if id.out.Return? {
      SignOnHashed(p, tag, l, id.m, m.mem[l.keypair..l.keypair + 96], EventId(p, keyed), m.mem[l.ent..l.ent + 32], entropy);
    }
  }

  /** Signing on a machine whose regions hold a given digest, keypair and
      entropy. */
  lemma SignOnHashed(p: Primitives, tag: seq<byte>, l: Layout, hashed: Machine, pair: Bytes96, d: Bytes32,
                     stored: Bytes32, entropy: Option<Bytes32>)
    requires Ready(p, l, hashed)
    requires hashed.mem[l.msgHash..l.msgHash + 32] == d
    requires hashed.mem[l.keypair..l.keypair + 96] == pair
    requires hashed.mem[l.ent..l.ent + 32] == stored
    ensures var s := SignStep(p, tag, l, hashed, entropy);
      var ent := if entropy.Some? then entropy.value else stored;
      && (s.out.Return? <==> PairSignature(p, pair, d, ent).Some?)
      && (s.out.Return? ==> PairSignature(p, pair, d, ent) == Some(s.m.mem[l.sigScratch..l.sigScratch + 64]))
      && (p.schnorrsigSign32(d, pair, ent).Done? && p.schnorrsigSign32(d, pair, ent).value.0 == FAILURE ==>
            s.out == Throw(SIGN_FAILED))
  {
    SignValue(p, tag, l, hashed, entropy);
  }

  /** The callback of `finalizeEvent` on a machine holding a keypair: it
      returns exactly when the keypair has a key, the message fits and
      signing succeeds; then the event has pubkey and id set. */
  lemma CallbackValue(p: Primitives, tag: seq<byte>, l: Layout, m: Machine, e: EventData, entropy: Option<Bytes32>)
    requires Ready(p, l, m)
    ensures var b := FinalizeCallbackStep(p, tag, l, m, e, entropy);
      var pair := m.mem[l.keypair..l.keypair + 96];
      var ent := if entropy.Some? then entropy.value else m.mem[l.ent..l.ent + 32];
      var keyed := KeyedWith(e, PairKey(p, pair));
      var d := EventId(p, keyed);
      && (b.step.out.Return? <==>
            PairKey(p, pair).Some? && m.brk + |Message(keyed.Committed())| <= |m.mem| && PairSignature(p, pair, d, ent).Some?)
      && (b.step.out.Return? ==> b.event == keyed.(id := ToHex(d)))
  {
    KeyValue(p, tag, l, m);
    var k := KeyStep(p, tag, l, m);
    if k.out.Return? {
      var keyed := e.(pubkey := ToHex(k.out.value));
      assert keyed == KeyedWith(e, PairKey(p, m.mem[l.keypair..l.keypair + 96]));
      SignedTailValue(p, tag, l, k.m, keyed, entropy);
    }
  }

  /** The same callback: a returned signature sits in its region, and when
      signing returns 0 it throws "failed to sign" with pubkey and id
      already set. */
  lemma CallbackSignature(p: Primitives, tag: seq<byte>, l: Layout, m: Machine, e: EventData, entropy: Option<Bytes32>)
    requires Ready(p, l, m)
    ensures var b := FinalizeCallbackStep(p, tag, l, m, e, entropy);
      var pair := m.mem[l.keypair..l.keypair + 96];
      var ent := if entropy.Some? then entropy.value else m.mem[l.ent..l.ent + 32];
      var keyed := KeyedWith(e, PairKey(p, pair));
      var d := EventId(p, keyed);
      && (b.step.out.Return? ==> PairSignature(p, pair, d, ent) == Some(b.step.m.mem[l.sigScratch..l.sigScratch + 64]))
      && (PairKey(p, pair).Some? && m.brk + |Message(keyed.Committed())| <= |m.mem|
          && p.schnorrsigSign32(d, pair, ent).Done? && p.schnorrsigSign32(d, pair, ent).value.0 == FAILURE ==>
            b.step.out == Throw(SIGN_FAILED) && b.event == keyed.(id := ToHex(d)))
  {
    KeyValue(p, tag, l, m);
    var k := KeyStep(p, tag, l, m);
    if k.out.Return? {
      var keyed := e.(pubkey := ToHex(k.out.value));
      assert keyed == KeyedWith(e, PairKey(p, m.mem[l.keypair..l.keypair + 96]));
      SignedTailValue(p, tag, l, k.m, keyed, entropy);
      SignedTailSignature(p, tag, l, k.m, keyed, entropy);
    }
  }

  /** Keypair creation followed by the callback, in terms of sk. */
  lemma CreatedParts(p: Primitives, tag: seq<byte>, l: Layout, m: Machine, e: EventData, sk: Bytes32,
                     entropy: Option<Bytes32>)
    requires Ready(p, l, m)
    ensures var c := CreatedStep(p, tag, l, m, sk);
      var pair := c.m.mem[l.keypair..l.keypair + 96];
      var ent := if entropy.Some? then entropy.value else m.mem[l.ent..l.ent + 32];
      var d := EventId(p, Keyed(p, e, sk));
      && (c.out.Return? <==> p.keypairCreate(sk).Done?)
      && (c.out.Return? ==>
            && pair == p.keypairCreate(sk).value.1
            && PairKey(p, pair) == PublicKeyOf(p, sk)
            && KeyedWith(e, PairKey(p, pair)) == Keyed(p, e, sk)
            && (if entropy.Some? then entropy.value else c.m.mem[l.ent..l.ent + 32]) == ent
            && PairSignature(p, pair, d, ent) == SignatureOf(p, sk, d, ent))
      && |c.m.mem| == |m.mem|
  {
    CreatedValue(p, tag, l, m, sk);
  }

  /** The `try` block of `finalizeEvent`: the callback's outcome, on the
      keypair of sk when keypair creation does not trap. */
  lemma FinalizeBodyValue(p: Primitives, tag: seq<byte>, l: Layout, m: Machine, e: EventData, sk: Bytes32,
                          entropy: Option<Bytes32>)
    requires Ready(p, l, m)
    ensures var b := FinalizeBodyStep(p, tag, l, m, e, sk, entropy);
      var ent := if entropy.Some? then entropy.value else m.mem[l.ent..l.ent + 32];
      var keyed := Keyed(p, e, sk);
      var d := EventId(p, keyed);
      && (b.step.out.Return? <==>
            PublicKeyOf(p, sk).Some? && m.brk + |Message(keyed.Committed())| <= |m.mem| && SignatureOf(p, sk, d, ent).Some?)
      && (b.step.out.Return? ==> b.event == keyed.(id := ToHex(d)))
  {
    CreatedParts(p, tag, l, m, e, sk, entropy);
    var c := CreatedStep(p, tag, l, m, sk);
    if c.out.Return? {
      CallbackValue(p, tag, l, c.m, e, entropy);
    }
  }

  /** The same block: a returned signature is the signature of the id under
      sk, and a 0 from the signer throws "failed to sign". */
  lemma FinalizeBodySignature(p: Primitives, tag: seq<byte>, l: Layout, m: Machine, e: EventData, sk: Bytes32,
                              entropy: Option<Bytes32>)
    requires Ready(p, l, m)
    ensures var b := FinalizeBodyStep(p, tag, l, m, e, sk, entropy);
      var ent := if entropy.Some? then entropy.value else m.mem[l.ent..l.ent + 32];
      var keyed := Keyed(p, e, sk);
      var d := EventId(p, keyed);
      var kp := p.keypairCreate(sk);
      && (b.step.out.Return? ==> SignatureOf(p, sk, d, ent) == Some(b.step.m.mem[l.sigScratch..l.sigScratch + 64]))
      && (kp.Done? && PublicKeyOf(p, sk).Some? && m.brk + |Message(keyed.Committed())| <= |m.mem|
          && p.schnorrsigSign32(d, kp.value.1, ent).Done? && p.schnorrsigSign32(d, kp.value.1, ent).value.0 == FAILURE ==>
            b.step.out == Throw(SIGN_FAILED) && b.event == keyed.(id := ToHex(d)))
  {
    CreatedParts(p, tag, l, m, e, sk, entropy);
    var c := CreatedStep(p, tag, l, m, sk);
    if c.out.Return? {
      CallbackValue(p, tag, l, c.m, e, entropy);
      CallbackSignature(p, tag, l, c.m, e, entropy);
    }
  }

  /** After the callback, `finalizeEvent` passes its exception on with the
      event as the callback left it, or reads the signature, which the wipe
      does not touch, into the event. */
  lemma FinishedValue(p: Primitives, l: Layout, body: Finalized)
    requires Ready(p, l, body.step.m)
    ensures var s := Finished(p, l, body);
      && (s.step.out == body.step.out)
      && (body.step.out.Throw? ==> s.event == body.event)
      && (body.step.out.Return? ==>
            s.event == body.event.(sig := ToHex(body.step.m.mem[l.sigScratch..l.sigScratch + 64])))
  {
    var x := Wiped(body.step.m, l).mem[l.sigScratch..l.sigScratch + 64];
    WipedKeeps(body.step.m, l, l.sigScratch, 64);
    assert x == body.step.m.mem[l.sigScratch..l.sigScratch + 64];
    if body.step.out.Return? {
      var u: () := body.step.out.value;
      assert u == ();
    }
  }

  /** `finalizeEvent` returns exactly when the signer's event exists and its
      message fits in the heap, and then the event object is that event: the
      pubkey of sk, the id of the event with that pubkey, and the signature
      of that id made with the entropy region's contents. */
  lemma FinalizeValue(p: Primitives, tag: seq<byte>, l: Layout, m: Machine, e: EventData, sk: Bytes32,
                      entropy: Option<Bytes32>)
    requires Ready(p, l, m)
    ensures var s := FinalizeStep(p, tag, l, m, e, sk, entropy);
      var ent := if entropy.Some? then entropy.value else m.mem[l.ent..l.ent + 32];
      var r := Signed(p, e, sk, ent);
      && (s.step.out.Return? <==> r.Some? && m.brk + |Message(r.value.Committed())| <= |m.mem|)
      && (s.step.out.Return? ==> s.event == r.value)
  {
    var b := FinalizeBodyStep(p, tag, l, m, e, sk, entropy);
    FinalizeBodyValue(p, tag, l, m, e, sk, entropy);
    FinalizeBodySignature(p, tag, l, m, e, sk, entropy);
    FinishedValue(p, l, b);
    var ent := if entropy.Some? then entropy.value else m.mem[l.ent..l.ent + 32];
    SignedShape(p, e, sk, ent);
  }

  /** Signed in terms of its parts; only pubkey and id enter the message. */
  lemma SignedShape(p: Primitives, e: EventData, sk: Bytes32, ent: Bytes32)
    ensures var keyed := Keyed(p, e, sk);
      var d := EventId(p, keyed);
      var r := Signed(p, e, sk, ent);
      && (r.Some? <==> PublicKeyOf(p, sk).Some? && SignatureOf(p, sk, d, ent).Some?)
      && (r.Some? ==> r.value == keyed.(id := ToHex(d), sig := ToHex(SignatureOf(p, sk, d, ent).value)))
      && (r.Some? ==> r.value.Committed() == keyed.Committed())
  {
  }

  /** A `finalizeEvent` that throws never sets the signature, and changes
      nothing in the event but its pubkey and id. */
  lemma FinalizeThrowKeepsSig(p: Primitives, tag: seq<byte>, l: Layout, m: Machine, e: EventData, sk: Bytes32,
                              entropy: Option<Bytes32>)
    requires Ready(p, l, m)
    ensures var s := FinalizeStep(p, tag, l, m, e, sk, entropy);
      s.step.out.Throw? ==> s.event.sig == e.sig && s.event.(pubkey := e.pubkey, id := e.id) == e
  {
  }

  /** When signing returns 0, `finalizeEvent` throws "failed to sign" and
      leaves the event half-finished: pubkey and id set, signature not. */
  lemma FinalizeSignFailure(p: Primitives, tag: seq<byte>, l: Layout, m: Machine, e: EventData, sk: Bytes32,
                            entropy: Option<Bytes32>)
    requires Ready(p, l, m) && PublicKeyOf(p, sk).Some?
    requires m.brk + |Message(Keyed(p, e, sk).Committed())| <= |m.mem|
    requires var ent := if entropy.Some? then entropy.value else m.mem[l.ent..l.ent + 32];
      var sg := p.schnorrsigSign32(EventId(p, Keyed(p, e, sk)), p.keypairCreate(sk).value.1, ent);
      sg.Done? && sg.value.0 == FAILURE
    ensures var s := FinalizeStep(p, tag, l, m, e, sk, entropy);
      && s.step.out == Throw(SIGN_FAILED)
      && s.event == Keyed(p, e, sk).(id := ToHex(EventId(p, Keyed(p, e, sk))))
  {
    FinalizeBodySignature(p, tag, l, m, e, sk, entropy);
  }

  /** As written, an `ent` passed to `finalizeEvent` is never copied in: the
      signature is made with whatever the entropy region held before. */
  lemma FinalizeEventStaleEntropy(p: Primitives, tag: seq<byte>, l: Layout, m: Machine, e: EventData, sk: Bytes32,
                                  ent: seq<byte>, random: Bytes32)
    requires Ready(p, l, m)
    ensures var s := FinalizeEventStep(p, tag, l, m, e, sk, Some(ent), random);
      var r := Signed(p, e, sk, m.mem[l.ent..l.ent + 32]);
      s.step.out.Return? ==> r.Some? && s.event == r.value
  {
    assert FinalizeEventStep(p, tag, l, m, e, sk, Some(ent), random) == FinalizeStep(p, tag, l, m, e, sk, None);
    FinalizeValue(p, tag, l, m, e, sk, None);
  }

  /** As written, the result of `finalizeEvent` does not depend on `ent`. */
  lemma FinalizeEventIgnoresEntropy(p: Primitives, tag: seq<byte>, l: Layout, m: Machine, e: EventData, sk: Bytes32,
                                    ent: seq<byte>, other: seq<byte>, random: Bytes32)
    requires Ready(p, l, m)
    ensures FinalizeEventStep(p, tag, l, m, e, sk, Some(ent), random)
      == FinalizeEventStep(p, tag, l, m, e, sk, Some(other), random)
  {
  }

  /** Without `ent`, `finalizeEvent` signs with the fresh random bytes. */
  lemma FinalizeEventFreshEntropy(p: Primitives, tag: seq<byte>, l: Layout, m: Machine, e: EventData, sk: Bytes32,
                                  random: Bytes32)
    requires Ready(p, l, m)
    ensures var s := FinalizeEventStep(p, tag, l, m, e, sk, None, random);
      var r := Signed(p, e, sk, random);
      && (s.step.out.Return? <==> r.Some? && m.brk + |Message(r.value.Committed())| <= |m.mem|)
      && (s.step.out.Return? ==> s.event == r.value)
  {
    FinalizeValue(p, tag, l, m, e, sk, Some(random));
  }

  /** With the entropy copied in as documented, `finalizeEvent` returns
      exactly when the signer's event for `ent` (or the random bytes when
      there is no `ent`) exists and fits, and produces that event. */
  lemma FinalizeEventIntendedValue(p: Primitives, tag: seq<byte>, l: Layout, m: Machine, e: EventData, sk: Bytes32,
                                   ent: Option<Bytes32>, random: Bytes32)
    requires Ready(p, l, m)
    ensures var s := FinalizeEventIntendedStep(p, tag, l, m, e, sk, ent, random);
      var r := Signed(p, e, sk, if ent.Some? then ent.value else random);
      && (s.step.out.Return? <==> r.Some? && m.brk + |Message(r.value.Committed())| <= |m.mem|)
      && (s.step.out.Return? ==> s.event == r.value)
  {
    FinalizeValue(p, tag, l, m, e, sk, Some(if ent.Some? then ent.value else random));
  }

  // ------------------------------------------------------------ verifyEvent

  /** The id check accepts exactly the ids that are a prefix of the computed
      digest, the empty id included. */
  lemma IdAcceptedIsPrefix(id: seq<byte>, computed: seq<byte>)
    ensures IdAccepted(id, computed) <==> |id| <= |computed| && id == computed[..|id|]
  {
    if |id| <= |computed| && id == computed[..|id|] {
      assert forall i :: 0 <= i < |id| ==> id[i] == computed[..|id|][i];
    }
  }

  /** An accepted id written over a hash region that holds the digest
      leaves the digest there: the id is its prefix. */
  lemma AcceptedIdRestoresDigest(mem: seq<byte>, at: nat, id: seq<byte>, d: seq<byte>)
    requires at + 32 <= |mem| && mem[at..at + 32] == d && IdAccepted(id, d)
    ensures id + mem[at + |id|..at + 32] == d
  {
    var tail := mem[at + |id|..at + 32];
    assert forall k :: 0 <= k < |tail| ==> tail[k] == d[|id| + k];
    assert tail == d[|id|..];
    IdAcceptedIsPrefix(id, d);
  }

  /** Copying a short `src` into an n-byte region replaces only its head. */
  lemma SplicePrefix(mem: seq<byte>, at: nat, src: seq<byte>, n: nat)
    requires |src| <= n && at + n <= |mem|
    ensures Splice(mem, at, src)[at..at + n] == src + mem[at + |src|..at + n]
  {
    var x, y := Splice(mem, at, src)[at..at + n], src + mem[at + |src|..at + n];
    assert forall i | 0 <= i < n :: x[i] == y[i];
  }

  /** The stored part of `verifyEvent`, for a 64-byte signature, an id of at
      most 32 bytes and a 32-byte key: the hash region holds the id followed
      by what the region held past it. It returns exactly when the key
      parses and the library accepts the signature over that hash; it
      throws "pubkey is invalid" when parsing returns 0 and "signature is
      invalid" when verification returns 0. */
  lemma VerifyStoredValue(p: Primitives, tag: seq<byte>, l: Layout, m: Machine,
                          sig: seq<byte>, id: seq<byte>, pk: seq<byte>)
    requires Ready(p, l, m) && |sig| == 64 && |id| <= 32 && |pk| == 32
    ensures var s := VerifyStoredStep(p, tag, l, m, sig, id, pk);
      var hash := id + m.mem[l.msgHash + |id|..l.msgHash + 32];
      var parsed := p.xonlyPubkeyParse(pk);
      && (s.out.Return? <==>
            parsed.Done? && parsed.value.0 == SUCCESS && p.schnorrsigVerify(sig, hash, parsed.value.1) == Done(SUCCESS))
      && (parsed.Done? && parsed.value.0 == FAILURE ==> s.out == Throw(PUBKEY_INVALID))
      && (parsed.Done? && parsed.value.0 == SUCCESS && p.schnorrsigVerify(sig, hash, parsed.value.1) == Done(FAILURE) ==>
            s.out == Throw(SIGNATURE_INVALID))
  {
    PlaceVerifyValue(p, l, m, sig, id, pk);
    CheckSignatureValue(p, tag, l, PlaceVerifyStep(p, l, m, sig, id, pk).m);
  }

  /** The copies of `verifyEvent` for a 64-byte signature, an id of at most
      32 bytes and a 32-byte key all fit: afterwards the signature region
      holds the signature, the hash region the id followed by what it held
      past the id, and the key region the key. */
  lemma PlaceVerifyValue(p: Primitives, l: Layout, m: Machine, sig: seq<byte>, id: seq<byte>, pk: seq<byte>)
    requires Ready(p, l, m) && |sig| == 64 && |id| <= 32 && |pk| == 32
    ensures var s := PlaceVerifyStep(p, l, m, sig, id, pk);
      && s.out == Return(())
      && s.m.mem[l.sigScratch..l.sigScratch + 64] == sig
      && s.m.mem[l.msgHash..l.msgHash + 32] == id + m.mem[l.msgHash + |id|..l.msgHash + 32]
      && s.m.mem[l.pubkeyScratch..l.pubkeyScratch + 32] == pk
  {
    PlacedBytes(m, l.msgHash, l.pubkeyScratch, l.sigScratch, sig, id, pk);
  }

  /** Three copies into ordered, disjoint regions of one memory: hash
      region, key region, signature region, written signature first. */
  lemma PlacedBytes(m: Machine, h: nat, k: nat, at: nat, sig: seq<byte>, id: seq<byte>, pk: seq<byte>)
    requires h + 32 <= k && k + 32 <= at && at + 64 <= |m.mem|
    requires |sig| == 64 && |id| <= 32 && |pk| == 32
    ensures var s1 := SetStep(m, at, sig);
      var s2 := SetStep(s1.m, h, id);
      var s3 := SetStep(s2.m, k, pk);
      && s1.out == Return(()) && s2.out == Return(()) && s3.out == Return(())
      && s3.m.mem[at..at + 64] == sig
      && s3.m.mem[h..h + 32] == id + m.mem[h + |id|..h + 32]
      && s3.m.mem[k..k + 32] == pk
  {
    var s1 := SetStep(m, at, sig);
    var s2 := SetStep(s1.m, h, id);
    var s3 := SetStep(s2.m, k, pk);
    KeepSlice(m.mem, s1.m.mem, Region(at, 64), h + |id|, 32 - |id|);
    SplicePrefix(s1.m.mem, h, id, 32);
    KeepSlice(s1.m.mem, s2.m.mem, Region(h, |id|), at, 64);
    KeepSlice(s2.m.mem, s3.m.mem, Region(k, 32), at, 64);
    KeepSlice(s2.m.mem, s3.m.mem, Region(k, 32), h, 32);
  }

  /** The checks of `verifyEvent` on the stored regions: they return exactly
      when the key region parses and the library accepts the signature
      region over the hash region; a 0 from parsing throws "pubkey is
      invalid", a 0 from verification "signature is invalid". */
  lemma CheckSignatureValue(p: Primitives, tag: seq<byte>, l: Layout, m: Machine)
    requires Ready(p, l, m)
    ensures var s := CheckSignatureStep(p, tag, l, m);
      var sig := m.mem[l.sigScratch..l.sigScratch + 64];
      var hash := m.mem[l.msgHash..l.msgHash + 32];
      var parsed := p.xonlyPubkeyParse(m.mem[l.pubkeyScratch..l.pubkeyScratch + 32]);
      && (s.out.Return? <==>
            parsed.Done? && parsed.value.0 == SUCCESS && p.schnorrsigVerify(sig, hash, parsed.value.1) == Done(SUCCESS))
      && (parsed.Done? && parsed.value.0 == FAILURE ==> s.out == Throw(PUBKEY_INVALID))
      && (parsed.Done? && parsed.value.0 == SUCCESS && p.schnorrsigVerify(sig, hash, parsed.value.1) == Done(FAILURE) ==>
            s.out == Throw(SIGNATURE_INVALID))
  {
    var parsed := XonlyPubkeyParseStep(p, tag, m, l.xonlyPubkey, l.pubkeyScratch);
    KeepSlice(m.mem, parsed.m.mem, l.XonlyPubkeyRegion(), l.sigScratch, 64);
    KeepSlice(m.mem, parsed.m.mem, l.XonlyPubkeyRegion(), l.msgHash, 32);
  }

  /** `verifyEvent`, for a 64-byte signature and a 32-byte key, returns
      exactly when the message fits, the id is accepted, the key parses and
      the library accepts the signature over the event's real digest: what
      is verified is the digest of the event's content, whatever its id. */
  lemma VerifyEventValue(p: Primitives, tag: seq<byte>, l: Layout, m: Machine, e: EventData)
    requires Ready(p, l, m) && |FromHex(e.sig)| == 64 && |FromHex(e.pubkey)| == 32
    ensures var s := VerifyEventStep(p, tag, l, m, e);
      var d := EventId(p, e);
      var parsed := p.xonlyPubkeyParse(FromHex(e.pubkey));
      s.out.Return? <==>
        && m.brk + |Message(e.Committed())| <= |m.mem| && IdAccepted(FromHex(e.id), d)
        && parsed.Done? && parsed.value.0 == SUCCESS
        && p.schnorrsigVerify(FromHex(e.sig), d, parsed.value.1) == Done(SUCCESS)
  {
    VerifyDigestValue(p, tag, l, m, Message(e.Committed()), FromHex(e.id), FromHex(e.sig), FromHex(e.pubkey));
  }

  /** `verifyEvent` on a serialized message and decoded fields, for a 64-byte
      signature and a 32-byte key: it returns exactly when the message fits,
      the id is accepted against the message's digest, the key parses and
      the library accepts the signature over that digest. */
  lemma VerifyDigestValue(p: Primitives, tag: seq<byte>, l: Layout, m: Machine,
                          message: seq<byte>, id: seq<byte>, sig: seq<byte>, pk: seq<byte>)
    requires Ready(p, l, m) && |sig| == 64 && |pk| == 32
    ensures var s := VerifyDigestStep(p, tag, l, m, message, id, sig, pk);
      var d := Digest(p, message);
      var parsed := p.xonlyPubkeyParse(pk);
      s.out.Return? <==>
        && m.brk + |message| <= |m.mem| && IdAccepted(id, d)
        && parsed.Done? && parsed.value.0 == SUCCESS
        && p.schnorrsigVerify(sig, d, parsed.value.1) == Done(SUCCESS)
  {
    DigestFits(p, tag, l, m, message);
    DigestValue(p, tag, l, m, message);
    VerifyHashedValue(p, tag, l, DigestStep(p, tag, l, m, message), id, sig, pk);
  }

  /** After hashing into the hash region: it returns exactly when hashing
      returned, the id is accepted against the digest, the key parses and
      the library accepts the signature over the digest. */
  lemma VerifyHashedValue(p: Primitives, tag: seq<byte>, l: Layout, c: Step<Bytes32>,
                          id: seq<byte>, sig: seq<byte>, pk: seq<byte>)
    requires Ready(p, l, c.m) && |sig| == 64 && |pk| == 32
    requires c.out.Return? ==> c.m.mem[l.msgHash..l.msgHash + 32] == c.out.value
    ensures var s := VerifyHashedStep(p, tag, l, c, id, sig, pk);
      var parsed := p.xonlyPubkeyParse(pk);
      s.out.Return? <==>
        && c.out.Return? && IdAccepted(id, c.out.value)
        && parsed.Done? && parsed.value.0 == SUCCESS
        && p.schnorrsigVerify(sig, c.out.value, parsed.value.1) == Done(SUCCESS)
  {
    if c.out.Return? && IdAccepted(id, c.out.value) {
      AcceptedIdRestoresDigest(c.m.mem, l.msgHash, id, c.out.value);
      VerifyStoredValue(p, tag, l, c.m, sig, id, pk);
    }
  }

  /** Every message `verifyEvent` throws after the id check is one of its own
      later messages, a RangeError or an abort: never "id is invalid". */
  lemma VerifyStoredNeverIdInvalid(p: Primitives, l: Layout, m: Machine, sig: seq<byte>, id: seq<byte>, pk: seq<byte>)
    requires Ready(p, l, m)
    ensures VerifyStoredStep(p, TAG, l, m, sig, id, pk).out != Throw(ID_INVALID)
  {
    FirstBytes();
    var s1 := SetStep(m, l.sigScratch, sig);
    var s2 := SetStep(s1.m, l.msgHash, id);
    var s3 := SetStep(s2.m, l.pubkeyScratch, pk);
    if s1.out.Return? && s2.out.Return? && s3.out.Return? {
      var pr := p.xonlyPubkeyParse(s3.m.mem[l.pubkeyScratch..l.pubkeyScratch + 32]);
      if pr.Trap? {
        ShimIsNotOwn(pr.diagnostic, 0);
      } else {
        var parsed := XonlyPubkeyParseStep(p, TAG, s3.m, l.xonlyPubkey, l.pubkeyScratch);
        var v := p.schnorrsigVerify(parsed.m.mem[l.sigScratch..l.sigScratch + 64],
                                    parsed.m.mem[l.msgHash..l.msgHash + 32],
                                    parsed.m.mem[l.xonlyPubkey..l.xonlyPubkey + 64]);
        if v.Trap? {
          ShimIsNotOwn(v.diagnostic, 0);
        }
      }
    }
  }

  /** `verifyEvent` throws "id is invalid" exactly when the message fits and
      the decoded id is not a prefix of the event's digest. */
  lemma VerifyEventIdCheck(p: Primitives, l: Layout, m: Machine, e: EventData)
    requires Ready(p, l, m)
    ensures VerifyEventStep(p, TAG, l, m, e).out == Throw(ID_INVALID) <==>
      m.brk + |Message(e.Committed())| <= |m.mem| && !IdAccepted(FromHex(e.id), EventId(p, e))
  {
    ComputeEventIdOutcome(p, TAG, l, m, e.Committed());
    var c := ComputeEventIdStep(p, TAG, l, m, e.Committed());
    if c.out.Throw? {
      ShimIsNotOwn([], m.brk + |Message(e.Committed())|);
    } else {
      VerifyStoredNeverIdInvalid(p, l, c.m, FromHex(e.sig), FromHex(e.id), FromHex(e.pubkey));
    }
  }

  /** As written, an event whose id is empty verifies exactly when the same
      event with its correct id does: the empty id passes the check, and the
      hash region still holds the computed digest. */
  lemma VerifyEventEmptyId(p: Primitives, tag: seq<byte>, l: Layout, m: Machine, e: EventData)
    requires Ready(p, l, m) && |FromHex(e.sig)| == 64 && |FromHex(e.pubkey)| == 32
    ensures VerifyEventStep(p, tag, l, m, e.(id := "")).out.Return?
        <==> VerifyEventStep(p, tag, l, m, e.(id := ToHex(EventId(p, e)))).out.Return?
  {
    var blank, full := e.(id := ""), e.(id := ToHex(EventId(p, e)));
    assert blank.Committed() == e.Committed() && full.Committed() == e.Committed();
    VerifyEventValue(p, tag, l, m, blank);
    VerifyEventValue(p, tag, l, m, full);
    FromHexToHex(EventId(p, e));
    assert FromHex(blank.id) == [];
  }

  /** The full id comparison agrees with the loop as written on every id of
      exactly 32 bytes. */
  lemma VerifyEventIntendedAgrees(p: Primitives, tag: seq<byte>, l: Layout, m: Machine, e: EventData)
    requires Ready(p, l, m) && |FromHex(e.id)| == 32
    ensures VerifyEventIntendedStep(p, tag, l, m, e) == VerifyEventStep(p, tag, l, m, e)
  {
    var c := ComputeEventIdStep(p, tag, l, m, e.Committed());
    var id := FromHex(e.id);
    if c.out.Return? && IdAccepted(id, c.out.value) {
      assert forall i :: 0 <= i < 32 ==> id[i] == c.out.value[i];
      assert id == c.out.value;
    }
  }

  /** With the full comparison, `verifyEvent` returns exactly when the message
      fits, the id is the event's digest, the key parses and the library
      accepts the signature over that digest. */
  lemma VerifyEventIntendedValue(p: Primitives, tag: seq<byte>, l: Layout, m: Machine, e: EventData)
    requires Ready(p, l, m) && |FromHex(e.sig)| == 64 && |FromHex(e.pubkey)| == 32
    ensures var s := VerifyEventIntendedStep(p, tag, l, m, e);
      var d := EventId(p, e);
      var parsed := p.xonlyPubkeyParse(FromHex(e.pubkey));
      s.out.Return? <==>
        && m.brk + |Message(e.Committed())| <= |m.mem| && FromHex(e.id) == d
        && parsed.Done? && parsed.value.0 == SUCCESS
        && p.schnorrsigVerify(FromHex(e.sig), d, parsed.value.1) == Done(SUCCESS)
  {
    ComputeEventIdOutcome(p, tag, l, m, e.Committed());
    var id := FromHex(e.id);
    if |id| == 32 {
      VerifyEventIntendedAgrees(p, tag, l, m, e);
      VerifyEventValue(p, tag, l, m, e);
      IdAcceptedIsPrefix(id, EventId(p, e));
    }
  }

  /** With the full comparison, an event with an empty id never verifies. */
  lemma VerifyEventIntendedRejectsEmptyId(p: Primitives, tag: seq<byte>, l: Layout, m: Machine, e: EventData)
    requires Ready(p, l, m)
    ensures VerifyEventIntendedStep(p, tag, l, m, e.(id := "")).out.Throw?
  {
    var blank := e.(id := "");
    ComputeEventIdOutcome(p, tag, l, m, blank.Committed());
    assert |FromHex(blank.id)| == 0;
  }
}
