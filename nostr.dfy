/** The `NostrWasm` facade (src/api/nostr.ts): the same scratch-region
    discipline as the secp256k1 facade, with a SHA-256 state region for
    event ids, `finalizeEvent` filling in an event object's pubkey, id and
    signature, and `verifyEvent` checking an event's id and signature. Each
    operation is a function from one machine state to the next (its
    specification) and a method of the facade class that performs it. */
module Nostr {
  import opened Host
  import opened Memory
  import opened Abi
  import opened RuntimeShim
  import opened Wasm
  import opened Hex
  import opened EventJson

  const PUBKEY_FAILED: seq<byte> := Ascii("failed to get pubkey from keypair")
  const SIGN_FAILED: seq<byte> := Ascii("failed to sign")
  const ID_INVALID: seq<byte> := Ascii("id is invalid")
  const PUBKEY_INVALID: seq<byte> := Ascii("pubkey is invalid")
  const SIGNATURE_INVALID: seq<byte> := Ascii("signature is invalid")

  /** The shim tag this facade passes to `emsimp`, with its ": ". */
  const TAG: seq<byte> := Ascii("nostr-wasm") + Ascii(": ")

  /** What the private-key and keypair regions are overwritten with. */
  const SK_WIPE: byte := 1
  const KEYPAIR_WIPE: byte := 2

  /** The scratch addresses, in the order they are allocated. */
  datatype Layout = Layout(sk: nat, ent: nat, msgHash: nat, pubkeyScratch: nat, sigScratch: nat,
                           keypair: nat, xonlyPubkey: nat, sha256: nat, ctx: nat)
  {
    function SkRegion(): Region { Region(sk, PRIVATE_KEY) }
    function EntRegion(): Region { Region(ent, NONCE_ENTROPY) }
    function MsgHashRegion(): Region { Region(msgHash, MSG_HASH) }
    function PubkeyScratchRegion(): Region { Region(pubkeyScratch, XONLY_PUBKEY) }
    function SigScratchRegion(): Region { Region(sigScratch, BIP340_SIG) }
    function KeypairRegion(): Region { Region(keypair, KEYPAIR_LIB) }
    function XonlyPubkeyRegion(): Region { Region(xonlyPubkey, XONLY_KEY_LIB) }
    function Sha256Region(): Region { Region(sha256, SHA256_LIB) }
    function CtxRegion(contextSize: nat): Region { Region(ctx, contextSize) }

    /** Each region ends where the next one may start, and the context ends
        inside a heap of `size` bytes. */
    predicate Valid(contextSize: nat, size: nat)
    {
      && sk + PRIVATE_KEY <= ent && ent + NONCE_ENTROPY <= msgHash && msgHash + MSG_HASH <= pubkeyScratch
      && pubkeyScratch + XONLY_PUBKEY <= sigScratch && sigScratch + BIP340_SIG <= keypair
      && keypair + KEYPAIR_LIB <= xonlyPubkey && xonlyPubkey + XONLY_KEY_LIB <= sha256
      && sha256 + SHA256_LIB <= ctx && ctx + contextSize <= size
    }

    function Regions(contextSize: nat): seq<Region>
    {
      [SkRegion(), EntRegion(), MsgHashRegion(), PubkeyScratchRegion(), SigScratchRegion(),
       KeypairRegion(), XonlyPubkeyRegion(), Sha256Region(), CtxRegion(contextSize)]
    }
  }

  /** The layout the allocator produces from break `base`. */
  function Consecutive(base: nat): (l: Layout)
    ensures l.sk == base
  {
    Layout(base, base + 32, base + 64, base + 96, base + 128, base + 192, base + 288, base + 352, base + 456)
  }

  /** The regions are pairwise disjoint and inside the heap. */
  lemma LayoutDisjoint(l: Layout, contextSize: nat, size: nat)
    requires l.Valid(contextSize, size)
    ensures forall i, j :: 0 <= i < j < |l.Regions(contextSize)| ==>
      l.Regions(contextSize)[i].Disjoint(l.Regions(contextSize)[j])
    ensures forall i :: 0 <= i < |l.Regions(contextSize)| ==> l.Regions(contextSize)[i].Within(size)
  {
  }

  /** The allocator's layout is a valid one whenever it fits. */
  lemma ConsecutiveValid(base: nat, contextSize: nat, size: nat)
    requires base + 456 + contextSize <= size
    ensures Consecutive(base).Valid(contextSize, size)
  {
  }

  /** A machine the facade can run on: the layout fits its heap, and the
      allocator's break is past the context, so every later allocation lies
      after all the scratch regions. */
  predicate Ready(p: Primitives, l: Layout, m: Machine)
  {
    l.Valid(p.contextSize, |m.mem|) && l.ctx + p.contextSize <= m.brk
  }

  // ------------------------------------------------------------ events

  /** The fields of an event object. */
  datatype EventData = EventData(id: string, pubkey: string, sig: string, content: string,
                                 kind: int, createdAt: int, tags: seq<seq<string>>)
  {
    /** The fields the id commits to. */
    function Committed(): Fields
    {
      Fields(pubkey, createdAt, kind, tags, content)
    }
  }

  /** The JavaScript event object `finalizeEvent` fills in. */
  class Event {
    var id: string
    var pubkey: string
    var sig: string
    var content: string
    var kind: int
    var createdAt: int
    var tags: seq<seq<string>>

    function Data(): EventData
      reads this
    {
      EventData(id, pubkey, sig, content, kind, createdAt, tags)
    }

    constructor (d: EventData)
      ensures Data() == d
    {
      id, pubkey, sig, content := d.id, d.pubkey, d.sig, d.content;
      kind, createdAt, tags := d.kind, d.createdAt, d.tags;
    }
  }

  // ------------------------------------------------------------ specification

  /** The `finally` of `with_keypair`. */
  function Wiped(m: Machine, l: Layout): (r: Machine)
    requires l.SkRegion().Within(|m.mem|) && l.KeypairRegion().Within(|m.mem|)
    ensures |r.mem| == |m.mem| && r.log == m.log && r.brk == m.brk
  {
    m.(mem := Fill(Fill(m.mem, l.SkRegion(), SK_WIPE), l.KeypairRegion(), KEYPAIR_WIPE))
  }

  /** The start of `with_keypair`: copy the key in and create the keypair,
      whose result is not looked at. */
  function CreatedStep(p: Primitives, tag: seq<byte>, l: Layout, m: Machine, sk: Bytes32): (s: Step<Bit>)
    requires Ready(p, l, m)
    ensures Ready(p, l, s.m) && s.m.brk == m.brk
  {
    KeypairCreateStep(p, tag, Wrote(m, l.sk, sk), l.keypair, l.sk)
  }

  /** `with_keypair(sk, () => keypair_xonly_pub(...))`. */
  function XonlyStep(p: Primitives, tag: seq<byte>, l: Layout, m: Machine, sk: Bytes32): (s: Step<Bit>)
    requires Ready(p, l, m)
    ensures Ready(p, l, s.m) && s.m.brk == m.brk
  {
    var c := CreatedStep(p, tag, l, m, sk);
    var used := if c.out.Throw? then c else KeypairXonlyPubStep(p, tag, c.m, l.xonlyPubkey, l.keypair);
    Step(used.out, Wiped(used.m, l))
  }

  /** `getPublicKey(sk)`: anything but 1 from the callback throws; the
      serialization's result is not looked at. */
  function GetPublicKeyStep(p: Primitives, tag: seq<byte>, l: Layout, m: Machine, sk: Bytes32): (s: Step<Bytes32>)
    requires Ready(p, l, m)
    ensures Ready(p, l, s.m) && s.m.brk == m.brk
  {
    var w := XonlyStep(p, tag, l, m, sk);
    if w.out.Throw? then Rethrow(w)
    else if w.out.value != SUCCESS then Fail<Bytes32>(PUBKEY_FAILED, w.m)
    else SerializedKeyStep(p, tag, l, w.m)
  }

  /** The x-only key region serialized into the public-key scratch region
      and read back; the serialization's result is not looked at. */
  function SerializedKeyStep(p: Primitives, tag: seq<byte>, l: Layout, m: Machine): (s: Step<Bytes32>)
    requires Ready(p, l, m)
    ensures Ready(p, l, s.m) && s.m.brk == m.brk
  {
    var ser := XonlyPubkeySerializeStep(p, tag, m, l.pubkeyScratch, l.xonlyPubkey);
    if ser.out.Throw? then Rethrow(ser)
    else Step(Return(ser.m.mem[l.pubkeyScratch..l.pubkeyScratch + 32]), ser.m)
  }

  /** `sha256_initialize`, `sha256_write` of the n bytes at `at`, and
      `sha256_finalize` into the message-hash region. */
  function HashedStep(p: Primitives, l: Layout, m: Machine, at: nat, n: nat): (r: Machine)
    requires Ready(p, l, m) && at + n <= |m.mem|
    ensures Ready(p, l, r) && r.brk == m.brk && r.log == m.log
  {
    var initialized := Sha256InitializeStep(p, m, l.sha256);
    var written := Sha256WriteStep(p, initialized, l.sha256, at, n);
    Sha256FinalizeStep(p, written, l.sha256, l.msgHash)
  }

  /** The heap work of `compute_event_id` for a serialized message: it is
      allocated (and never freed), copied in, hashed from the SHA-256 state
      region into the message-hash region, and the digest is read back. */
  function DigestStep(p: Primitives, tag: seq<byte>, l: Layout, m: Machine, message: seq<byte>): (s: Step<Bytes32>)
    requires Ready(p, l, m)
    ensures Ready(p, l, s.m) && s.m.brk >= m.brk && |s.m.mem| == |m.mem|
  {
    var a := MallocStep(Flavour.Emsimp, tag, m, |message|);
    if a.out.Throw? then Rethrow(a) else StoredDigestStep(p, l, a.m, a.out.value, message)
  }

  /** The message copied in at `at`, hashed, and the digest read back. */
  function StoredDigestStep(p: Primitives, l: Layout, m: Machine, at: nat, message: seq<byte>): (s: Step<Bytes32>)
    requires Ready(p, l, m) && at + |message| <= |m.mem|
    ensures Ready(p, l, s.m) && s.m.brk == m.brk && |s.m.mem| == |m.mem|
  {
    var hashed := HashedStep(p, l, Wrote(m, at, message), at, |message|);
    Step(Return(hashed.mem[l.msgHash..l.msgHash + 32]), hashed)
  }

  /** `compute_event_id(event)`: the digest step for the event's message. */
  function ComputeEventIdStep(p: Primitives, tag: seq<byte>, l: Layout, m: Machine, f: Fields): (s: Step<Bytes32>)
    requires Ready(p, l, m)
    ensures Ready(p, l, s.m) && s.m.brk >= m.brk && |s.m.mem| == |m.mem|
  {
    DigestStep(p, tag, l, m, Message(f))
  }

  /** What an operation of `finalizeEvent` ends with: its outcome, the
      machine, and the event object as it then is. */
  datatype Finalized = Finalized(step: Step<()>, event: EventData)

  /** The first part of the callback of `finalizeEvent`: the x-only key,
      serialized and read back; neither result code is looked at. */
  function KeyStep(p: Primitives, tag: seq<byte>, l: Layout, m: Machine): (s: Step<Bytes32>)
    requires Ready(p, l, m)
    ensures Ready(p, l, s.m) && s.m.brk == m.brk
  {
    var xk := KeypairXonlyPubStep(p, tag, m, l.xonlyPubkey, l.keypair);
    if xk.out.Throw? then Rethrow(xk) else SerializedKeyStep(p, tag, l, xk.m)
  }

  /** The last part of the callback: the entropy region receives `entropy`
      when there is one and is left as it is otherwise, then the signature
      over the message-hash region; anything but 1 throws. */
  function SignStep(p: Primitives, tag: seq<byte>, l: Layout, m: Machine, entropy: Option<Bytes32>): (s: Step<()>)
    requires Ready(p, l, m)
    ensures Ready(p, l, s.m) && s.m.brk == m.brk
  {
    var entered := if entropy.Some? then Wrote(m, l.ent, entropy.value) else m;
    var sig := SchnorrsigSign32Step(p, tag, entered, l.sigScratch, l.msgHash, l.keypair, l.ent);
    if sig.out.Throw? then Rethrow(sig)
    else if sig.out.value != SUCCESS then Fail(SIGN_FAILED, sig.m)
    else Step(Return(()), sig.m)
  }

  /** The callback `finalizeEvent` hands to `with_keypair`. The event's
      pubkey is set before its id is computed, and both stay set whatever
      happens after. */
  function FinalizeCallbackStep(p: Primitives, tag: seq<byte>, l: Layout, m: Machine, e: EventData,
                                entropy: Option<Bytes32>): (s: Finalized)
    requires Ready(p, l, m)
    ensures Ready(p, l, s.step.m) && s.step.m.brk >= m.brk
  {
    var k := KeyStep(p, tag, l, m);
    if k.out.Throw? then Finalized(Rethrow(k), e) else
    var keyed := e.(pubkey := ToHex(k.out.value));
    var id := ComputeEventIdStep(p, tag, l, k.m, keyed.Committed());
    if id.out.Throw? then Finalized(Rethrow(id), keyed) else
    Finalized(SignStep(p, tag, l, id.m, entropy), keyed.(id := ToHex(id.out.value)))
  }

  /** The `try` block of `with_keypair` in `finalizeEvent`. */
  function FinalizeBodyStep(p: Primitives, tag: seq<byte>, l: Layout, m: Machine, e: EventData, sk: Bytes32,
                            entropy: Option<Bytes32>): (s: Finalized)
    requires Ready(p, l, m)
    ensures Ready(p, l, s.step.m) && s.step.m.brk >= m.brk
  {
    var c := CreatedStep(p, tag, l, m, sk);
    if c.out.Throw? then Finalized(Rethrow(c), e) else FinalizeCallbackStep(p, tag, l, c.m, e, entropy)
  }

  /** `finalizeEvent` with a given choice of what goes into the entropy
      region: `with_keypair` around the callback, then, only when it
      returned, the signature read back into the event. */
  function FinalizeStep(p: Primitives, tag: seq<byte>, l: Layout, m: Machine, e: EventData, sk: Bytes32,
                        entropy: Option<Bytes32>): (s: Finalized)
    requires Ready(p, l, m)
    ensures Ready(p, l, s.step.m) && s.step.m.brk >= m.brk
  {
    Finished(p, l, FinalizeBodyStep(p, tag, l, m, e, sk, entropy))
  }

  /** What `finalizeEvent` does once `with_keypair` is over: wipe, then
      read the signature back only when the callback returned. */
  function Finished(p: Primitives, l: Layout, body: Finalized): (s: Finalized)
    requires Ready(p, l, body.step.m)
    ensures Ready(p, l, s.step.m) && s.step.m.brk == body.step.m.brk
  {
    var wiped := Wiped(body.step.m, l);
    if body.step.out.Throw? then Finalized(Step(Throw(body.step.out.message), wiped), body.event)
    else Finalized(Step(Return(()), wiped), body.event.(sig := ToHex(wiped.mem[l.sigScratch..l.sigScratch + 64])))
  }

  /** `finalizeEvent(event, seckey, ent)` as written: fresh random bytes go
      into the entropy region only when no `ent` is passed, and a passed
      `ent` is never copied anywhere. */
  function FinalizeEventStep(p: Primitives, tag: seq<byte>, l: Layout, m: Machine, e: EventData, sk: Bytes32,
                             ent: Option<seq<byte>>, random: Bytes32): (s: Finalized)
    requires Ready(p, l, m)
    ensures Ready(p, l, s.step.m) && s.step.m.brk >= m.brk
  {
    FinalizeStep(p, tag, l, m, e, sk, if ent.None? then Some(random) else None)
  }

  /** `finalizeEvent` as its documentation describes it: the passed entropy,
      or fresh random bytes when there is none, is copied in before signing. */
  function FinalizeEventIntendedStep(p: Primitives, tag: seq<byte>, l: Layout, m: Machine, e: EventData, sk: Bytes32,
                                     ent: Option<Bytes32>, random: Bytes32): (s: Finalized)
    requires Ready(p, l, m)
    ensures Ready(p, l, s.step.m) && s.step.m.brk >= m.brk
  {
    FinalizeStep(p, tag, l, m, e, sk, Some(if ent.Some? then ent.value else random))
  }

  /** The id check of `verifyEvent`: every decoded id byte equals the
      computed byte at its position; a position past the digest's end holds
      `undefined`, which equals no byte. */
  predicate IdAccepted(id: seq<byte>, computed: seq<byte>)
  {
    |id| <= |computed| && forall i :: 0 <= i < |id| ==> id[i] == computed[i]
  }

  /** The part of `verifyEvent` after the id check: signature, id and pubkey
      copied to their regions (each copy throws a RangeError past the end of
      the heap), then parsing and verification against the hash region. */
  function VerifyStoredStep(p: Primitives, tag: seq<byte>, l: Layout, m: Machine,
                            sig: seq<byte>, id: seq<byte>, pk: seq<byte>): (s: Step<()>)
    requires Ready(p, l, m)
    ensures Ready(p, l, s.m) && s.m.brk == m.brk
  {
    var placed := PlaceVerifyStep(p, l, m, sig, id, pk);
    if placed.out.Throw? then placed else CheckSignatureStep(p, tag, l, placed.m)
  }

  /** The three copies of `verifyEvent`: signature, id and key go into their
      scratch regions, each one throwing when it does not fit. */
  function PlaceVerifyStep(p: Primitives, l: Layout, m: Machine, sig: seq<byte>, id: seq<byte>, pk: seq<byte>): (s: Step<()>)
    requires Ready(p, l, m)
    ensures Ready(p, l, s.m) && s.m.brk == m.brk
  {
    var s1 := SetStep(m, l.sigScratch, sig);
    if s1.out.Throw? then s1 else
    var s2 := SetStep(s1.m, l.msgHash, id);
    if s2.out.Throw? then s2 else
    SetStep(s2.m, l.pubkeyScratch, pk)
  }

  /** The parse of the key region and the verification of the signature
      region over the hash region; a 0 from either throws. */
  function CheckSignatureStep(p: Primitives, tag: seq<byte>, l: Layout, m: Machine): (s: Step<()>)
    requires Ready(p, l, m)
    ensures Ready(p, l, s.m) && s.m.brk == m.brk
  {
    var parsed := XonlyPubkeyParseStep(p, tag, m, l.xonlyPubkey, l.pubkeyScratch);
    if parsed.out.Throw? then Rethrow(parsed)
    else if parsed.out.value != SUCCESS then Step(Throw(PUBKEY_INVALID), parsed.m) else
    var v := SchnorrsigVerifyStep(p, tag, parsed.m, l.sigScratch, l.msgHash, MSG_HASH, l.xonlyPubkey);
    if v.out.Throw? then Rethrow(v)
    else if v.out.value != SUCCESS then Step(Throw(SIGNATURE_INVALID), v.m)
    else Step(Return(()), v.m)
  }

  /** `verifyEvent(event)` as written. */
  function VerifyEventStep(p: Primitives, tag: seq<byte>, l: Layout, m: Machine, e: EventData): (s: Step<()>)
    requires Ready(p, l, m)
    ensures Ready(p, l, s.m) && s.m.brk >= m.brk
  {
    VerifyDigestStep(p, tag, l, m, Message(e.Committed()), FromHex(e.id), FromHex(e.sig), FromHex(e.pubkey))
  }

  /** `verifyEvent` once the event is serialized and its hex fields decoded:
      hash the message, check the id against the digest, then the stored
      part. */
  function VerifyDigestStep(p: Primitives, tag: seq<byte>, l: Layout, m: Machine,
                            message: seq<byte>, id: seq<byte>, sig: seq<byte>, pk: seq<byte>): (s: Step<()>)
    requires Ready(p, l, m)
    ensures Ready(p, l, s.m) && s.m.brk >= m.brk
  {
    VerifyHashedStep(p, tag, l, DigestStep(p, tag, l, m, message), id, sig, pk)
  }

  /** What `verifyEvent` does with the outcome of hashing: pass a throw on,
      check the id against the digest, then the stored part. */
  function VerifyHashedStep(p: Primitives, tag: seq<byte>, l: Layout, c: Step<Bytes32>,
                            id: seq<byte>, sig: seq<byte>, pk: seq<byte>): (s: Step<()>)
    requires Ready(p, l, c.m)
    ensures Ready(p, l, s.m) && s.m.brk == c.m.brk
  {
    if c.out.Throw? then Rethrow(c)
    else if !IdAccepted(id, c.out.value) then Step(Throw(ID_INVALID), c.m)
    else VerifyStoredStep(p, tag, l, c.m, sig, id, pk)
  }

  /** `verifyEvent` with the id compared in full, as its documentation
      ("verifies if an event's .id property is correct") describes. */
  function VerifyEventIntendedStep(p: Primitives, tag: seq<byte>, l: Layout, m: Machine, e: EventData): (s: Step<()>)
    requires Ready(p, l, m)
    ensures Ready(p, l, s.m) && s.m.brk >= m.brk
  {
    VerifyDigestIntendedStep(p, tag, l, m, Message(e.Committed()), FromHex(e.id), FromHex(e.sig), FromHex(e.pubkey))
  }

  /** `VerifyDigestStep` with the id compared in full. */
  function VerifyDigestIntendedStep(p: Primitives, tag: seq<byte>, l: Layout, m: Machine,
                                    message: seq<byte>, id: seq<byte>, sig: seq<byte>, pk: seq<byte>): (s: Step<()>)
    requires Ready(p, l, m)
    ensures Ready(p, l, s.m) && s.m.brk >= m.brk
  {
    var c := DigestStep(p, tag, l, m, message);
    if c.out.Throw? then Rethrow(c)
    else if id != c.out.value then Step(Throw(ID_INVALID), c.m)
    else VerifyStoredStep(p, tag, l, c.m, sig, id, pk)
  }

  // ------------------------------------------------------------ the facade

  class NostrWasm {
    const wasm: Module
    const layout: Layout

    ghost predicate Valid()
      reads this, wasm, wasm.env
    {
      && wasm.Valid() && wasm.env.tag == TAG && wasm.env.flavour == Flavour.Emsimp
      && layout.Valid(wasm.prims.contextSize, wasm.env.heap.Length)
      && layout.ctx + wasm.prims.contextSize <= wasm.brk
    }

    constructor (w: Module, l: Layout)
      requires w.Valid() && w.env.tag == TAG && w.env.flavour == Flavour.Emsimp
      requires l.Valid(w.prims.contextSize, w.env.heap.Length) && l.ctx + w.prims.contextSize <= w.brk
      ensures wasm == w && layout == l && Valid()
    {
      wasm := w;
      layout := l;
    }

    /** Construction: a shim tagged "nostr-wasm" bound to `memory`, an
      instance whose allocator starts at `base` once `init()` has run, the
      eight scratch regions in order, then one context for signing and
      verification. Running out of heap throws the shim's resize error. */
    static method Instantiate(p: Primitives, memory: array<byte>, base: nat) returns (r: Outcome<NostrWasm>)
      requires memory.Length % 4 == 0 && base <= memory.Length
      modifies memory
      ensures r.Return? <==> base + 456 + p.contextSize <= memory.Length
      ensures r.Return? ==> && fresh(r.value) && r.value.Valid() && r.value.layout == Consecutive(base)
                            && r.value.wasm.env.heap == memory && r.value.wasm.brk == base + 456 + p.contextSize
      ensures r.Throw? ==> r.message == TAG + Ascii("Out of memory")
    {
      var shim := new Shim.Emsimp(Ascii("nostr-wasm"));
      shim.Bind(memory);
      var w := new Module(shim, p, base);
      assert w.env.tag == TAG;
      var keys := w.Take4(PRIVATE_KEY, NONCE_ENTROPY, MSG_HASH, XONLY_PUBKEY);
      if keys.Throw? { return Throw(keys.message); }
      var scratch := w.Take4(BIP340_SIG, KEYPAIR_LIB, XONLY_KEY_LIB, SHA256_LIB);
      if scratch.Throw? { return Throw(scratch.message); }
      var ctx := w.ContextCreate(CONTEXT_SIGN_VERIFY);
      if ctx.Throw? { return Throw(ctx.message); }
      var l := Layout(keys.value.0, keys.value.1, keys.value.2, keys.value.3,
                      scratch.value.0, scratch.value.1, scratch.value.2, scratch.value.3, ctx.value);
      var facade := new NostrWasm(w, l);
      r := Return(facade);
    }

    /** The start of `with_keypair`. */
    method Created(sk: Bytes32) returns (r: Outcome<Bit>)
      requires Valid()
      modifies wasm.env, wasm.env.heap
      ensures Valid() && wasm.env.heap == old(wasm.env.heap)
      ensures Step(r, wasm.State()) == CreatedStep(wasm.prims, TAG, layout, old(wasm.State()), sk)
    {
      wasm.Store(layout.sk, sk);
      r := wasm.KeypairCreate(layout.keypair, layout.sk);
    }

    /** The `finally` of `with_keypair`. */
    method Wipe()
      requires Valid()
      modifies wasm.env.heap
      ensures Valid() && wasm.State() == Wiped(old(wasm.State()), layout)
    {
      wasm.FillRegion(layout.SkRegion(), SK_WIPE);
      wasm.FillRegion(layout.KeypairRegion(), KEYPAIR_WIPE);
    }

    /** `with_keypair(sk, () => keypair_xonly_pub(...))`. */
    method Xonly(sk: Bytes32) returns (r: Outcome<Bit>)
      requires Valid()
      modifies wasm.env, wasm.env.heap
      ensures Valid() && wasm.env.heap == old(wasm.env.heap)
      ensures Step(r, wasm.State()) == XonlyStep(wasm.prims, TAG, layout, old(wasm.State()), sk)
    {
      // try
      r := Created(sk);
      if r.Return? {
        r := wasm.KeypairXonlyPub(layout.xonlyPubkey, layout.keypair);
      }
      // finally
      Wipe();
    }

    /** `getPublicKey(sk)`. */
    method GetPublicKey(sk: Bytes32) returns (r: Outcome<Bytes32>)
      requires Valid()
      modifies wasm.env, wasm.env.heap
      ensures Valid() && wasm.env.heap == old(wasm.env.heap)
      ensures Step(r, wasm.State()) == GetPublicKeyStep(wasm.prims, TAG, layout, old(wasm.State()), sk)
    {
      var w := Xonly(sk);
      if w.Throw? {
        return Throw(w.message);
      }
      if w.value != SUCCESS {
        return Throw(PUBKEY_FAILED);
      }
      r := SerializeKey();
    }

    /** The serialization of the x-only key and the read of its 32 bytes. */
    method SerializeKey() returns (r: Outcome<Bytes32>)
      requires Valid()
      modifies wasm.env, wasm.env.heap
      ensures Valid() && wasm.env.heap == old(wasm.env.heap)
      ensures Step(r, wasm.State()) == SerializedKeyStep(wasm.prims, TAG, layout, old(wasm.State()))
    {
      var ser := wasm.XonlyPubkeySerialize(layout.pubkeyScratch, layout.xonlyPubkey);
      if ser.Throw? {
        return Throw(ser.message);
      }
      var key := wasm.Slice(layout.pubkeyScratch, XONLY_PUBKEY);
      r := Return(key);
    }

    /** The three SHA-256 calls of `compute_event_id`. */
    method Hash(at: nat, n: nat)
      requires Valid() && at + n <= wasm.env.heap.Length
      modifies wasm.env.heap
      ensures Valid() && wasm.State() == HashedStep(wasm.prims, layout, old(wasm.State()), at, n)
    {
      wasm.Sha256Initialize(layout.sha256);
      wasm.Sha256Write(layout.sha256, at, n);
      wasm.Sha256Finalize(layout.sha256, layout.msgHash);
    }

    /** The body of `compute_event_id` once the message is serialized. */
    method Digest(message: seq<byte>) returns (r: Outcome<Bytes32>)
      requires Valid()
      modifies wasm, wasm.env.heap
      ensures Valid() && wasm.env.heap == old(wasm.env.heap)
      ensures Step(r, wasm.State()) == DigestStep(wasm.prims, TAG, layout, old(wasm.State()), message)
    {
      var a := wasm.Malloc(|message|);
      if a.Throw? {
        return Throw(a.message);
      }
      r := StoredDigest(a.value, message);
    }

    /** Copy, hash and read back the digest. */
    method StoredDigest(at: nat, message: seq<byte>) returns (r: Outcome<Bytes32>)
      requires Valid() && at + |message| <= wasm.env.heap.Length
      modifies wasm.env.heap
      ensures Valid()
      ensures Step(r, wasm.State()) == StoredDigestStep(wasm.prims, layout, old(wasm.State()), at, message)
    {
      wasm.Store(at, message);
      Hash(at, |message|);
      var digest := wasm.Slice(layout.msgHash, MSG_HASH);
      r := Return(digest);
    }

    /** `compute_event_id(event)` for the event's committed fields. */
    method ComputeEventId(f: Fields) returns (r: Outcome<Bytes32>)
      requires Valid()
      modifies wasm, wasm.env.heap
      ensures Valid() && wasm.env.heap == old(wasm.env.heap)
      ensures Step(r, wasm.State()) == ComputeEventIdStep(wasm.prims, TAG, layout, old(wasm.State()), f)
    {
      var message := Message(f);
      r := Digest(message);
    }

    /** The key part of the callback of `finalizeEvent`. */
    method Key() returns (r: Outcome<Bytes32>)
      requires Valid()
      modifies wasm.env, wasm.env.heap
      ensures Valid() && wasm.env.heap == old(wasm.env.heap)
      ensures Step(r, wasm.State()) == KeyStep(wasm.prims, TAG, layout, old(wasm.State()))
    {
      var xk := wasm.KeypairXonlyPub(layout.xonlyPubkey, layout.keypair);
      if xk.Throw? {
        return Throw(xk.message);
      }
      r := SerializeKey();
    }

    /** The signing part of the callback of `finalizeEvent`. */
    method SignHash(entropy: Option<Bytes32>) returns (r: Outcome<()>)
      requires Valid()
      modifies wasm.env, wasm.env.heap
      ensures Valid() && wasm.env.heap == old(wasm.env.heap)
      ensures Step(r, wasm.State()) == SignStep(wasm.prims, TAG, layout, old(wasm.State()), entropy)
    {
      if entropy.Some? {
        wasm.Store(layout.ent, entropy.value);
      }
      var sig := wasm.SchnorrsigSign32(layout.sigScratch, layout.msgHash, layout.keypair, layout.ent);
      if sig.Throw? {
        return Throw(sig.message);
      }
      if sig.value != SUCCESS {
        return Throw(SIGN_FAILED);
      }
      r := Return(());
    }

    /** The callback of `finalizeEvent`, which updates the event in place. */
    method FinalizeCallback(ev: Event, entropy: Option<Bytes32>) returns (r: Outcome<()>)
      requires Valid()
      modifies ev, wasm, wasm.env, wasm.env.heap
      ensures Valid() && wasm.env.heap == old(wasm.env.heap)
      ensures Finalized(Step(r, wasm.State()), ev.Data())
        == FinalizeCallbackStep(wasm.prims, TAG, layout, old(wasm.State()), old(ev.Data()), entropy)
    {
      var pubkey := Key();
      if pubkey.Throw? {
        return Throw(pubkey.message);
      }
      ev.pubkey := ToHex(pubkey.value);
      var id := ComputeEventId(ev.Data().Committed());
      if id.Throw? {
        return Throw(id.message);
      }
      ev.id := ToHex(id.value);
      r := SignHash(entropy);
    }

    /** The `try` block of `with_keypair` in `finalizeEvent`. */
    method FinalizeBody(ev: Event, sk: Bytes32, entropy: Option<Bytes32>) returns (r: Outcome<()>)
      requires Valid()
      modifies ev, wasm, wasm.env, wasm.env.heap
      ensures Valid() && wasm.env.heap == old(wasm.env.heap)
      ensures Finalized(Step(r, wasm.State()), ev.Data())
        == FinalizeBodyStep(wasm.prims, TAG, layout, old(wasm.State()), old(ev.Data()), sk, entropy)
    {
      var c := Created(sk);
      if c.Throw? {
        r := Throw(c.message);
      } else {
        r := FinalizeCallback(ev, entropy);
      }
    }

    /** `finalizeEvent` with the given choice for the entropy region. */
    method Finalize(ev: Event, sk: Bytes32, entropy: Option<Bytes32>) returns (r: Outcome<()>)
      requires Valid()
      modifies ev, wasm, wasm.env, wasm.env.heap
      ensures Valid() && wasm.env.heap == old(wasm.env.heap)
      ensures Finalized(Step(r, wasm.State()), ev.Data())
        == FinalizeStep(wasm.prims, TAG, layout, old(wasm.State()), old(ev.Data()), sk, entropy)
    {
      // try
      var b := FinalizeBody(ev, sk, entropy);
      // finally, and the signature read back
      r := Finish(ev, b, Finalized(Step(b, wasm.State()), ev.Data()));
    }

    /** The `finally` of `with_keypair` in `finalizeEvent` and what follows
        it, once the callback has ended with `b`. */
    method Finish(ev: Event, b: Outcome<()>, ghost body: Finalized) returns (r: Outcome<()>)
      requires Valid() && body.step == Step(b, wasm.State()) && body.event == ev.Data()
      modifies ev, wasm.env.heap
      ensures Valid() && wasm.env.heap == old(wasm.env.heap)
      ensures Finalized(Step(r, wasm.State()), ev.Data()) == Finished(wasm.prims, layout, body)
    {
      Wipe();
      if b.Throw? {
        r := Throw(b.message);
      } else {
        ReadSignature(ev);
        r := Return(());
      }
    }

    /** `event.sig = toHex(sigScratch)`. */
    method ReadSignature(ev: Event)
      requires Valid()
      modifies ev
      ensures ev.Data() == old(ev.Data()).(sig := ToHex(wasm.State().mem[layout.sigScratch..layout.sigScratch + 64]))
    {
      var sig := wasm.Slice(layout.sigScratch, BIP340_SIG);
      ev.sig := ToHex(sig);
    }

    /** `finalizeEvent(event, seckey, ent)`, with the 32 bytes
      `crypto.getRandomValues` would return as input. */
    method FinalizeEvent(ev: Event, sk: Bytes32, ent: Option<seq<byte>>, random: Bytes32) returns (r: Outcome<()>)
      requires Valid()
      modifies ev, wasm, wasm.env, wasm.env.heap
      ensures Valid() && wasm.env.heap == old(wasm.env.heap)
      ensures Finalized(Step(r, wasm.State()), ev.Data())
        == FinalizeEventStep(wasm.prims, TAG, layout, old(wasm.State()), old(ev.Data()), sk, ent, random)
    {
      r := Finalize(ev, sk, if ent.None? then Some(random) else None);
    }

    /** `finalizeEvent` copying the passed entropy in before signing. */
    method FinalizeEventIntended(ev: Event, sk: Bytes32, ent: Option<Bytes32>, random: Bytes32) returns (r: Outcome<()>)
      requires Valid()
      modifies ev, wasm, wasm.env, wasm.env.heap
      ensures Valid() && wasm.env.heap == old(wasm.env.heap)
      ensures Finalized(Step(r, wasm.State()), ev.Data())
        == FinalizeEventIntendedStep(wasm.prims, TAG, layout, old(wasm.State()), old(ev.Data()), sk, ent, random)
    {
      r := Finalize(ev, sk, Some(if ent.Some? then ent.value else random));
    }

    /** The comparison loop of `verifyEvent`: it stops at the first position
      where the decoded id and the computed id differ, a position past the
      digest's end counting as a difference. */
    static method CheckId(id: seq<byte>, computed: Bytes32) returns (r: Outcome<()>)
      ensures r == if IdAccepted(id, computed) then Return(()) else Throw(ID_INVALID)
    {
      var i := 0;
      while i < |id|
        invariant 0 <= i <= |id| && i <= |computed|
        invariant forall j :: 0 <= j < i ==> j < |computed| && id[j] == computed[j]
      {
        if i >= |computed| || id[i] != computed[i] {
          return Throw(ID_INVALID);
        }
        i := i + 1;
      }
      r := Return(());
    }

    /** The copies, parse and verification of `verifyEvent`. */
    method VerifyStored(sig: seq<byte>, id: seq<byte>, pk: seq<byte>) returns (r: Outcome<()>)
      requires Valid()
      modifies wasm.env, wasm.env.heap
      ensures Valid() && wasm.env.heap == old(wasm.env.heap)
      ensures Step(r, wasm.State()) == VerifyStoredStep(wasm.prims, TAG, layout, old(wasm.State()), sig, id, pk)
    {
      var placed := PlaceVerifyInputs(sig, id, pk);
      if placed.Throw? {
        return Throw(placed.message);
      }
      r := CheckSignature();
    }

    /** The three copies of `verifyEvent`. */
    method PlaceVerifyInputs(sig: seq<byte>, id: seq<byte>, pk: seq<byte>) returns (r: Outcome<()>)
      requires Valid()
      modifies wasm.env.heap
      ensures Valid() && wasm.env.heap == old(wasm.env.heap)
      ensures Step(r, wasm.State()) == PlaceVerifyStep(wasm.prims, layout, old(wasm.State()), sig, id, pk)
    {
      r := wasm.Set(layout.sigScratch, sig);
      if r.Throw? {
        return;
      }
      r := wasm.Set(layout.msgHash, id);
      if r.Throw? {
        return;
      }
      r := wasm.Set(layout.pubkeyScratch, pk);
    }

    /** The parse and the verification of `verifyEvent`. */
    method CheckSignature() returns (r: Outcome<()>)
      requires Valid()
      modifies wasm.env, wasm.env.heap
      ensures Valid() && wasm.env.heap == old(wasm.env.heap)
      ensures Step(r, wasm.State()) == CheckSignatureStep(wasm.prims, TAG, layout, old(wasm.State()))
    {
      var parsed := wasm.XonlyPubkeyParse(layout.xonlyPubkey, layout.pubkeyScratch);
      if parsed.Throw? {
        return Throw(parsed.message);
      }
      if parsed.value != SUCCESS {
        return Throw(PUBKEY_INVALID);
      }
      var v := wasm.SchnorrsigVerify(layout.sigScratch, layout.msgHash, MSG_HASH, layout.xonlyPubkey);
      if v.Throw? {
        return Throw(v.message);
      }
      if v.value != SUCCESS {
        return Throw(SIGNATURE_INVALID);
      }
      r := Return(());
    }

    /** `verifyEvent(event)`. */
    method VerifyEvent(ev: Event) returns (r: Outcome<()>)
      requires Valid()
      modifies wasm, wasm.env, wasm.env.heap
      ensures Valid() && wasm.env.heap == old(wasm.env.heap)
      ensures Step(r, wasm.State()) == VerifyEventStep(wasm.prims, TAG, layout, old(wasm.State()), ev.Data())
    {
      var d := ev.Data();
      r := VerifyDigest(Message(d.Committed()), FromHex(d.id), FromHex(d.sig), FromHex(d.pubkey));
    }

    /** The hash, id check and stored part of `verifyEvent`. */
    method VerifyDigest(message: seq<byte>, id: seq<byte>, sig: seq<byte>, pk: seq<byte>) returns (r: Outcome<()>)
      requires Valid()
      modifies wasm, wasm.env, wasm.env.heap
      ensures Valid() && wasm.env.heap == old(wasm.env.heap)
      ensures Step(r, wasm.State()) == VerifyDigestStep(wasm.prims, TAG, layout, old(wasm.State()), message, id, sig, pk)
    {
      var c := Digest(message);
      if c.Throw? {
        return Throw(c.message);
      }
      var checked := CheckId(id, c.value);
      if checked.Throw? {
        return Throw(checked.message);
      }
      r := VerifyStored(sig, id, pk);
    }

    /** `verifyEvent` comparing the whole id. */
    method VerifyEventIntended(ev: Event) returns (r: Outcome<()>)
      requires Valid()
      modifies wasm, wasm.env, wasm.env.heap
      ensures Valid() && wasm.env.heap == old(wasm.env.heap)
      ensures Step(r, wasm.State()) == VerifyEventIntendedStep(wasm.prims, TAG, layout, old(wasm.State()), ev.Data())
    {
      var d := ev.Data();
      r := VerifyDigestIntended(Message(d.Committed()), FromHex(d.id), FromHex(d.sig), FromHex(d.pubkey));
    }

    /** `VerifyDigest` comparing the whole id. */
    method VerifyDigestIntended(message: seq<byte>, id: seq<byte>, sig: seq<byte>, pk: seq<byte>) returns (r: Outcome<()>)
      requires Valid()
      modifies wasm, wasm.env, wasm.env.heap
      ensures Valid() && wasm.env.heap == old(wasm.env.heap)
      ensures Step(r, wasm.State()) == VerifyDigestIntendedStep(wasm.prims, TAG, layout, old(wasm.State()), message, id, sig, pk)
    {
      var c := Digest(message);
      if c.Throw? {
        return Throw(c.message);
      }
      if id != c.value {
        return Throw(ID_INVALID);
      }
      r := VerifyStored(sig, id, pk);
    }
  }
}
