/** The compiled secp256k1 module as the facades see it: linear memory owned
    by the runtime shim, a bump allocator, and one method per export. The
    curve arithmetic and SHA-256 stay abstract: they are the function-valued
    fields of `Primitives`, and each export reads its documented input
    regions, applies its primitive and writes its documented output region
    and nothing else. */
module Wasm {
  import opened Host
  import opened Memory
  import opened Abi
  import opened RuntimeShim

  /** How a call into compiled C ends: it returns, or an argument check fails
      and the library's illegal-argument callback prints a diagnostic to
      fd 2 and calls `abort`. */
  datatype Exit<+T> = Done(value: T) | Trap(diagnostic: seq<byte>)

  /** The library's functions on the byte images of their arguments. The
      results of `keypair_xonly_pub` and `xonly_pubkey_serialize` carry no
      result code because both are documented to return 1 always. */
  datatype Primitives = Primitives(
    /** Bytes that `context_create` allocates for one context. */
    contextSize: nat,
    contextCreate: bv32 -> seq<byte>,
    contextRandomize: (seq<byte>, Bytes32) -> Exit<(Bit, seq<byte>)>,
    keypairCreate: Bytes32 -> Exit<(Bit, Bytes96)>,
    keypairXonlyPub: Bytes96 -> Exit<Bytes64>,
    xonlyPubkeyParse: Bytes32 -> Exit<(Bit, Bytes64)>,
    xonlyPubkeySerialize: Bytes64 -> Exit<Bytes32>,
    schnorrsigSign32: (Bytes32, Bytes96, Bytes32) -> Exit<(Bit, Bytes64)>,
    schnorrsigVerify: (Bytes64, seq<byte>, Bytes64) -> Exit<Bit>,
    sha256Initialize: Bytes104,
    sha256Write: (Bytes104, seq<byte>) -> Bytes104,
    sha256Finalize: Bytes104 -> Bytes32)

  /** Everything a facade operation can change: the heap bytes, the shim's
      last error and console, and the allocator's break. */
  datatype Machine = Machine(mem: seq<byte>, log: Log, brk: nat)

  /** An operation's outcome and the machine after it. */
  datatype Step<+T> = Step(out: Outcome<T>, m: Machine)

  /** The message of the RangeError `Uint8Array.prototype.set` throws when the
      source does not fit (the text is the one V8 uses). */
  const OFFSET_OUT_OF_BOUNDS: seq<byte> := Ascii("offset is out of bounds")

  /** The bytes after `after` agree with `before` everywhere outside region r. */
  ghost predicate OnlyWrites(before: seq<byte>, after: seq<byte>, r: Region)
  {
    |after| == |before| && forall i :: 0 <= i < |before| && !r.Contains(i) ==> after[i] == before[i]
  }

  /** What two regions leave alone is left alone by writing both. */
  lemma OnlyWritesBoth(a: seq<byte>, b: seq<byte>, c: seq<byte>, r1: Region, r2: Region, r: Region)
    requires OnlyWrites(a, b, r1) && OnlyWrites(b, c, r2)
    requires forall i :: 0 <= i < |a| && (r1.Contains(i) || r2.Contains(i)) ==> r.Contains(i)
    ensures OnlyWrites(a, c, r)
  {
  }

  /** A region a write leaves alone reads the same bytes after it. */
  lemma KeepSlice(before: seq<byte>, after: seq<byte>, r: Region, at: nat, n: nat)
    requires OnlyWrites(before, after, r) && at + n <= |before| && Region(at, n).Disjoint(r)
    ensures after[at..at + n] == before[at..at + n]
  {
    var x, y := after[at..at + n], before[at..at + n];
    assert forall i | 0 <= i < n :: x[i] == y[i];
  }

  /** A filled region a write leaves alone stays filled. */
  lemma KeepFilled(before: seq<byte>, after: seq<byte>, r: Region, reg: Region, v: byte)
    requires OnlyWrites(before, after, r) && reg.Within(|before|) && reg.Disjoint(r)
    requires Filled(before, reg, v)
    ensures Filled(after, reg, v)
  {
  }

  /** A byte string cut or zero-padded to exactly n bytes. */
  function Fit(s: seq<byte>, n: nat): (r: seq<byte>)
    ensures |r| == n
    ensures |s| == n ==> r == s
  {
    if |s| >= n then s[..n] else s + Zeros(n - |s|)
  }

  // ------------------------------------------------------------ semantics

  /** A trap: the diagnostic reaches fd 2 through `write`, then `abort` throws
      the tag and that diagnostic. Memory is unchanged. */
  function Trapped<T>(tag: seq<byte>, m: Machine, d: seq<byte>): (s: Step<T>)
    ensures s.out == Throw(AbortMessage(tag, d)) && s.m.mem == m.mem && s.m.brk == m.brk
    ensures s.m.log.sError == d
  {
    Step(Throw(AbortMessage(tag, d)), m.(log := Routed(tag, m.log, 2, d)))
  }

  /** An exception passed on unchanged by the caller. */
  function Rethrow<T, U>(s: Step<T>): (r: Step<U>)
    requires s.out.Throw?
    ensures r.out == Throw(s.out.message) && r.m == s.m
  {
    Step(Throw(s.out.message), s.m)
  }

  /** An exception the caller raises itself. */
  function Fail<T>(message: seq<byte>, m: Machine): (s: Step<T>)
    ensures s.out == Throw(message) && s.m == m
  {
    Step(Throw(message), m)
  }

  /** `malloc(n)`: the next n bytes when they fit; otherwise the allocator
      asks the shim to grow the heap, and `resize` throws. */
  function MallocStep(flavour: Flavour, tag: seq<byte>, m: Machine, n: nat): (s: Step<nat>)
    ensures s.m.mem == m.mem && s.m.log == m.log
    ensures m.brk + n <= |m.mem| ==> s.out == Return(m.brk) && s.m.brk == m.brk + n
    ensures m.brk + n > |m.mem| ==> s.out == Throw(ResizeMessage(flavour, tag, m.brk + n)) && s.m.brk == m.brk
  {
    if m.brk + n <= |m.mem| then Step(Return(m.brk), m.(brk := m.brk + n))
    else Step(Throw(ResizeMessage(flavour, tag, m.brk + n)), m)
  }

  /** `ATU8_HEAP.set(src, at)`. */
  function SetStep(m: Machine, at: nat, src: seq<byte>): (s: Step<()>)
    ensures OnlyWrites(m.mem, s.m.mem, Region(at, |src|)) && s.m.log == m.log && s.m.brk == m.brk
    ensures at + |src| <= |m.mem| ==> s.out == Return(()) && s.m.mem[at..at + |src|] == src
    ensures at + |src| > |m.mem| ==> s.out == Throw(OFFSET_OUT_OF_BOUNDS) && s.m.mem == m.mem
  {
    if at + |src| <= |m.mem| then Step(Return(()), m.(mem := Splice(m.mem, at, src)))
    else Step(Throw(OFFSET_OUT_OF_BOUNDS), m)
  }

  /** An export that writes `out` at `at`: the machine with that region replaced. */
  function Wrote(m: Machine, at: nat, out: seq<byte>): (r: Machine)
    requires at + |out| <= |m.mem|
    ensures OnlyWrites(m.mem, r.mem, Region(at, |out|))
    ensures r.mem[at..at + |out|] == out && r.log == m.log && r.brk == m.brk
  {
    m.(mem := Splice(m.mem, at, out))
  }

  function ContextRandomizeStep(p: Primitives, tag: seq<byte>, m: Machine, ctx: nat, seed: nat): (s: Step<Bit>)
    requires ctx + p.contextSize <= |m.mem| && seed + RANDOM_SEED <= |m.mem|
    ensures OnlyWrites(m.mem, s.m.mem, Region(ctx, p.contextSize)) && s.m.brk == m.brk
  {
    match p.contextRandomize(m.mem[ctx..ctx + p.contextSize], m.mem[seed..seed + 32])
    case Trap(d) => Trapped(tag, m, d)
    case Done((bit, c)) => Step(Return(bit), Wrote(m, ctx, Fit(c, p.contextSize)))
  }

  function KeypairCreateStep(p: Primitives, tag: seq<byte>, m: Machine, keypair: nat, sk: nat): (s: Step<Bit>)
    requires keypair + KEYPAIR_LIB <= |m.mem| && sk + PRIVATE_KEY <= |m.mem|
    ensures OnlyWrites(m.mem, s.m.mem, Region(keypair, KEYPAIR_LIB)) && s.m.brk == m.brk
    ensures p.keypairCreate(m.mem[sk..sk + 32]).Done? ==>
      && s.out == Return(p.keypairCreate(m.mem[sk..sk + 32]).value.0)
      && s.m.mem[keypair..keypair + 96] == p.keypairCreate(m.mem[sk..sk + 32]).value.1
  {
    match p.keypairCreate(m.mem[sk..sk + 32])
    case Trap(d) => Trapped(tag, m, d)
    case Done((bit, pair)) => Step(Return(bit), Wrote(m, keypair, pair))
  }

  /** `keypair_xonly_pub(ctx, pubkey, NULL, keypair)`: returns 1 unless it traps. */
  function KeypairXonlyPubStep(p: Primitives, tag: seq<byte>, m: Machine, pubkey: nat, keypair: nat): (s: Step<Bit>)
    requires pubkey + XONLY_KEY_LIB <= |m.mem| && keypair + KEYPAIR_LIB <= |m.mem|
    ensures OnlyWrites(m.mem, s.m.mem, Region(pubkey, XONLY_KEY_LIB)) && s.m.brk == m.brk
    ensures s.out.Return? ==> s.out.value == SUCCESS
    ensures p.keypairXonlyPub(m.mem[keypair..keypair + 96]).Done? ==>
      && s.out == Return(SUCCESS)
      && s.m.mem[pubkey..pubkey + 64] == p.keypairXonlyPub(m.mem[keypair..keypair + 96]).value
  {
    match p.keypairXonlyPub(m.mem[keypair..keypair + 96])
    case Trap(d) => Trapped(tag, m, d)
    case Done(key) => Step(Return(SUCCESS), Wrote(m, pubkey, key))
  }

  /** `xonly_pubkey_parse(ctx, pubkey, input32)`: 0 when the input is not a valid key. */
  function XonlyPubkeyParseStep(p: Primitives, tag: seq<byte>, m: Machine, pubkey: nat, input: nat): (s: Step<Bit>)
    requires pubkey + XONLY_KEY_LIB <= |m.mem| && input + XONLY_PUBKEY <= |m.mem|
    ensures OnlyWrites(m.mem, s.m.mem, Region(pubkey, XONLY_KEY_LIB)) && s.m.brk == m.brk
    ensures p.xonlyPubkeyParse(m.mem[input..input + 32]).Done? ==>
      && s.out == Return(p.xonlyPubkeyParse(m.mem[input..input + 32]).value.0)
      && s.m.mem[pubkey..pubkey + 64] == p.xonlyPubkeyParse(m.mem[input..input + 32]).value.1
  {
    match p.xonlyPubkeyParse(m.mem[input..input + 32])
    case Trap(d) => Trapped(tag, m, d)
    case Done((bit, key)) => Step(Return(bit), Wrote(m, pubkey, key))
  }

  /** `xonly_pubkey_serialize(ctx, output32, pubkey)`: returns 1 unless it traps. */
  function XonlyPubkeySerializeStep(p: Primitives, tag: seq<byte>, m: Machine, output: nat, pubkey: nat): (s: Step<Bit>)
    requires output + XONLY_PUBKEY <= |m.mem| && pubkey + XONLY_KEY_LIB <= |m.mem|
    ensures OnlyWrites(m.mem, s.m.mem, Region(output, XONLY_PUBKEY)) && s.m.brk == m.brk
    ensures s.out.Return? ==> s.out.value == SUCCESS
    ensures p.xonlyPubkeySerialize(m.mem[pubkey..pubkey + 64]).Done? ==>
      && s.out == Return(SUCCESS)
      && s.m.mem[output..output + 32] == p.xonlyPubkeySerialize(m.mem[pubkey..pubkey + 64]).value
  {
    match p.xonlyPubkeySerialize(m.mem[pubkey..pubkey + 64])
    case Trap(d) => Trapped(tag, m, d)
    case Done(out) => Step(Return(SUCCESS), Wrote(m, output, out))
  }

  /** `schnorrsig_sign32(ctx, sig64, msg32, keypair, aux_rand32)`. */
  function SchnorrsigSign32Step(p: Primitives, tag: seq<byte>, m: Machine, sig: nat, msg: nat, keypair: nat, aux: nat): (s: Step<Bit>)
    requires sig + BIP340_SIG <= |m.mem| && msg + MSG_HASH <= |m.mem|
    requires keypair + KEYPAIR_LIB <= |m.mem| && aux + NONCE_ENTROPY <= |m.mem|
    ensures OnlyWrites(m.mem, s.m.mem, Region(sig, BIP340_SIG)) && s.m.brk == m.brk
    ensures var e := p.schnorrsigSign32(m.mem[msg..msg + 32], m.mem[keypair..keypair + 96], m.mem[aux..aux + 32]);
      e.Done? ==> s.out == Return(e.value.0) && s.m.mem[sig..sig + 64] == e.value.1
  {
    match p.schnorrsigSign32(m.mem[msg..msg + 32], m.mem[keypair..keypair + 96], m.mem[aux..aux + 32])
    case Trap(d) => Trapped(tag, m, d)
    case Done((bit, out)) => Step(Return(bit), Wrote(m, sig, out))
  }

  /** `schnorrsig_verify(ctx, sig64, msg, msglen, pubkey)`: writes nothing. */
  function SchnorrsigVerifyStep(p: Primitives, tag: seq<byte>, m: Machine, sig: nat, msg: nat, msglen: nat, pubkey: nat): (s: Step<Bit>)
    requires sig + BIP340_SIG <= |m.mem| && msg + msglen <= |m.mem| && pubkey + XONLY_KEY_LIB <= |m.mem|
    ensures s.m.mem == m.mem && s.m.brk == m.brk
    ensures var e := p.schnorrsigVerify(m.mem[sig..sig + 64], m.mem[msg..msg + msglen], m.mem[pubkey..pubkey + 64]);
      e.Done? ==> s.out == Return(e.value) && s.m == m
  {
    match p.schnorrsigVerify(m.mem[sig..sig + 64], m.mem[msg..msg + msglen], m.mem[pubkey..pubkey + 64])
    case Trap(d) => Trapped(tag, m, d)
    case Done(bit) => Step(Return(bit), m)
  }

  /** `sha256_initialize(hash)`. */
  function Sha256InitializeStep(p: Primitives, m: Machine, hash: nat): (r: Machine)
    requires hash + SHA256_LIB <= |m.mem|
    ensures OnlyWrites(m.mem, r.mem, Region(hash, SHA256_LIB))
    ensures r.mem[hash..hash + 104] == p.sha256Initialize && r.log == m.log && r.brk == m.brk
  {
    Wrote(m, hash, p.sha256Initialize)
  }

  /** `sha256_write(hash, data, size)`. */
  function Sha256WriteStep(p: Primitives, m: Machine, hash: nat, data: nat, size: nat): (r: Machine)
    requires hash + SHA256_LIB <= |m.mem| && data + size <= |m.mem|
    ensures OnlyWrites(m.mem, r.mem, Region(hash, SHA256_LIB)) && r.log == m.log && r.brk == m.brk
    ensures r.mem[hash..hash + 104] == p.sha256Write(m.mem[hash..hash + 104], m.mem[data..data + size])
  {
    Wrote(m, hash, p.sha256Write(m.mem[hash..hash + 104], m.mem[data..data + size]))
  }

  /** `sha256_finalize(hash, out32)`. */
  function Sha256FinalizeStep(p: Primitives, m: Machine, hash: nat, out: nat): (r: Machine)
    requires hash + SHA256_LIB <= |m.mem| && out + MSG_HASH <= |m.mem|
    ensures OnlyWrites(m.mem, r.mem, Region(out, MSG_HASH)) && r.log == m.log && r.brk == m.brk
    ensures r.mem[out..out + 32] == p.sha256Finalize(m.mem[hash..hash + 104])
  {
    Wrote(m, out, p.sha256Finalize(m.mem[hash..hash + 104]))
  }

  /** The digest of a message: initialize, one write, finalize. */
  function Digest(p: Primitives, message: seq<byte>): Bytes32
  {
    p.sha256Finalize(p.sha256Write(p.sha256Initialize, message))
  }

  // ------------------------------------------------------------ reference values

  /** The x-only public key of sk when no export traps: keypair, x-only key,
      serialization. */
  function PublicKeyOf(p: Primitives, sk: Bytes32): Option<Bytes32>
  {
    var kp := p.keypairCreate(sk);
    if kp.Trap? then None else
    var xk := p.keypairXonlyPub(kp.value.1);
    if xk.Trap? then None else
    var ser := p.xonlyPubkeySerialize(xk.value);
    if ser.Trap? then None else Some(ser.value)
  }

  /** The signature of hash under sk with auxiliary randomness ent, when the
      keypair exists and signing succeeds. */
  function SignatureOf(p: Primitives, sk: Bytes32, hash: Bytes32, ent: Bytes32): Option<Bytes64>
  {
    var kp := p.keypairCreate(sk);
    if kp.Trap? then None else
    var sig := p.schnorrsigSign32(hash, kp.value.1, ent);
    if sig.Trap? || sig.value.0 != SUCCESS then None else Some(sig.value.1)
  }

  // ------------------------------------------------------------ the instance

  /** An instantiated module: the shim it imports, its primitives, and the
      allocator's break. Its memory is the shim's bound heap. */
  class Module {
    const env: Shim
    const prims: Primitives
    var brk: nat

    ghost predicate Valid()
      reads this, env
    {
      env.bound && brk <= env.heap.Length
    }

    /** The machine this instance and its shim form. */
    function State(): Machine
      reads this, env, env.heap
    {
      Machine(env.heap[..], env.Logs(), brk)
    }

    /** Instantiation against a shim whose heap is bound; `init()` has run
      and the allocator starts at `base`. */
    constructor (shim: Shim, p: Primitives, base: nat)
      requires shim.bound && base <= shim.heap.Length
      ensures env == shim && prims == p && brk == base && Valid()
    {
      env := shim;
      prims := p;
      brk := base;
    }

    /** The heap after writing src at `at`. */
    method Store(at: nat, src: seq<byte>)
      requires Valid() && at + |src| <= env.heap.Length
      modifies env.heap
      ensures env.heap[..] == Splice(old(env.heap[..]), at, src)
    {
      forall i | 0 <= i < |src| {
        env.heap[at + i] := src[i];
      }
      assert forall i :: 0 <= i < env.heap.Length ==> env.heap[..][i] == Splice(old(env.heap[..]), at, src)[i];
    }

    /** `ATU8_HEAP.set(src, at)`. */
    method Set(at: nat, src: seq<byte>) returns (r: Outcome<()>)
      requires Valid()
      modifies env.heap
      ensures Valid() && Step(r, State()) == SetStep(old(State()), at, src)
    {
      if at + |src| <= env.heap.Length {
        Store(at, src);
        r := Return(());
      } else {
        r := Throw(OFFSET_OUT_OF_BOUNDS);
      }
    }

    /** `ATU8_HEAP.fill(v, r.at, r.End())` on an in-bounds region. */
    method FillRegion(reg: Region, v: byte)
      requires Valid() && reg.Within(env.heap.Length)
      modifies env.heap
      ensures Valid() && State() == old(State()).(mem := Fill(old(env.heap[..]), reg, v))
    {
      forall i | reg.at <= i < reg.End() {
        env.heap[i] := v;
      }
      assert forall i :: 0 <= i < env.heap.Length ==> env.heap[..][i] == Fill(old(env.heap[..]), reg, v)[i];
    }

    /** `ATU8_HEAP.slice(at, at + n)` on an in-bounds range. */
    method Slice(at: nat, n: nat) returns (s: seq<byte>)
      requires Valid() && at + n <= env.heap.Length
      ensures s == env.heap[at..at + n]
    {
      s := env.heap[at..at + n];
    }

    /** A trap inside an export: report on fd 2, then `abort`. */
    method Raise<T>(d: seq<byte>) returns (r: Outcome<T>)
      requires Valid()
      modifies env
      ensures Valid() && env.heap == old(env.heap)
      ensures Step(r, State()) == Trapped(env.tag, old(State()), d)
    {
      var routed := env.Route(2, d);
      var a := env.Abort();
      r := Throw(a.message);
    }

    method Malloc(n: nat) returns (r: Outcome<nat>)
      requires Valid()
      modifies this
      ensures Valid() && Step(r, State()) == MallocStep(env.flavour, env.tag, old(State()), n)
    {
      if brk + n <= env.heap.Length {
        r := Return(brk);
        brk := brk + n;
      } else {
        var refused := env.Resize(brk + n);
        r := Throw(refused.message);
      }
    }

    /** One `malloc` under the emsimp shim, whose refusal names no size. */
    method Take(n: nat) returns (r: Outcome<nat>)
      requires Valid() && env.flavour == Flavour.Emsimp
      modifies this
      ensures Valid() && env.heap[..] == old(env.heap[..])
      ensures old(brk) + n <= env.heap.Length ==> r == Return(old(brk)) && brk == old(brk) + n
      ensures old(brk) + n > env.heap.Length ==> r == Throw(env.tag + Ascii("Out of memory"))
    {
      r := Malloc(n);
    }

    /** Four `malloc`s in a row: consecutive regions, or the refusal. */
    method Take4(n0: nat, n1: nat, n2: nat, n3: nat) returns (r: Outcome<(nat, nat, nat, nat)>)
      requires Valid() && env.flavour == Flavour.Emsimp
      modifies this
      ensures Valid() && env.heap[..] == old(env.heap[..])
      ensures r.Return? <==> old(brk) + n0 + n1 + n2 + n3 <= env.heap.Length
      ensures r.Return? ==> var b := old(brk);
        r.value == (b, b + n0, b + n0 + n1, b + n0 + n1 + n2) && brk == b + n0 + n1 + n2 + n3
      ensures r.Throw? ==> r.message == env.tag + Ascii("Out of memory")
    {
      var a0 := Take(n0);
      if a0.Throw? { return Throw(a0.message); }
      var a1 := Take(n1);
      if a1.Throw? { return Throw(a1.message); }
      var a2 := Take(n2);
      if a2.Throw? { return Throw(a2.message); }
      var a3 := Take(n3);
      if a3.Throw? { return Throw(a3.message); }
      r := Return((a0.value, a1.value, a2.value, a3.value));
    }

    /** `context_create(flags)`: allocates the context and initializes it. */
    method ContextCreate(flags: bv32) returns (r: Outcome<nat>)
      requires Valid()
      modifies this, env.heap
      ensures Valid() && env.heap == old(env.heap)
      ensures var a := MallocStep(env.flavour, env.tag, old(State()), prims.contextSize);
        if a.out.Throw? then Step(r, State()) == a
        else Step(r, State()) == Step(a.out, Wrote(a.m, a.out.value, Fit(prims.contextCreate(flags), prims.contextSize)))
    {
      r := Malloc(prims.contextSize);
      if r.Return? {
        Store(r.value, Fit(prims.contextCreate(flags), prims.contextSize));
      }
    }

    method ContextRandomize(ctx: nat, seed: nat) returns (r: Outcome<Bit>)
      requires Valid() && ctx + prims.contextSize <= env.heap.Length && seed + RANDOM_SEED <= env.heap.Length
      modifies env, env.heap
      ensures Valid() && env.heap == old(env.heap)
      ensures Step(r, State()) == ContextRandomizeStep(prims, env.tag, old(State()), ctx, seed)
    {
      match prims.contextRandomize(env.heap[ctx..ctx + prims.contextSize], env.heap[seed..seed + 32])
      case Trap(d) => r := Raise(d);
      case Done((bit, c)) =>
        Store(ctx, Fit(c, prims.contextSize));
        r := Return(bit);
    }

    method KeypairCreate(keypair: nat, sk: nat) returns (r: Outcome<Bit>)
      requires Valid() && keypair + KEYPAIR_LIB <= env.heap.Length && sk + PRIVATE_KEY <= env.heap.Length
      modifies env, env.heap
      ensures Valid() && env.heap == old(env.heap)
      ensures Step(r, State()) == KeypairCreateStep(prims, env.tag, old(State()), keypair, sk)
    {
      match prims.keypairCreate(env.heap[sk..sk + 32])
      case Trap(d) => r := Raise(d);
      case Done((bit, pair)) =>
        Store(keypair, pair);
        r := Return(bit);
    }

    method KeypairXonlyPub(pubkey: nat, keypair: nat) returns (r: Outcome<Bit>)
      requires Valid() && pubkey + XONLY_KEY_LIB <= env.heap.Length && keypair + KEYPAIR_LIB <= env.heap.Length
      modifies env, env.heap
      ensures Valid() && env.heap == old(env.heap)
      ensures Step(r, State()) == KeypairXonlyPubStep(prims, env.tag, old(State()), pubkey, keypair)
    {
      match prims.keypairXonlyPub(env.heap[keypair..keypair + 96])
      case Trap(d) => r := Raise(d);
      case Done(key) =>
        Store(pubkey, key);
        r := Return(SUCCESS);
    }

    method XonlyPubkeyParse(pubkey: nat, input: nat) returns (r: Outcome<Bit>)
      requires Valid() && pubkey + XONLY_KEY_LIB <= env.heap.Length && input + XONLY_PUBKEY <= env.heap.Length
      modifies env, env.heap
      ensures Valid() && env.heap == old(env.heap)
      ensures Step(r, State()) == XonlyPubkeyParseStep(prims, env.tag, old(State()), pubkey, input)
    {
      match prims.xonlyPubkeyParse(env.heap[input..input + 32])
      case Trap(d) => r := Raise(d);
      case Done((bit, key)) =>
        Store(pubkey, key);
        r := Return(bit);
    }

    method XonlyPubkeySerialize(output: nat, pubkey: nat) returns (r: Outcome<Bit>)
      requires Valid() && output + XONLY_PUBKEY <= env.heap.Length && pubkey + XONLY_KEY_LIB <= env.heap.Length
      modifies env, env.heap
      ensures Valid() && env.heap == old(env.heap)
      ensures Step(r, State()) == XonlyPubkeySerializeStep(prims, env.tag, old(State()), output, pubkey)
    {
      match prims.xonlyPubkeySerialize(env.heap[pubkey..pubkey + 64])
      case Trap(d) => r := Raise(d);
      case Done(out) =>
        Store(output, out);
        r := Return(SUCCESS);
    }

    method SchnorrsigSign32(sig: nat, msg: nat, keypair: nat, aux: nat) returns (r: Outcome<Bit>)
      requires Valid() && sig + BIP340_SIG <= env.heap.Length && msg + MSG_HASH <= env.heap.Length
      requires keypair + KEYPAIR_LIB <= env.heap.Length && aux + NONCE_ENTROPY <= env.heap.Length
      modifies env, env.heap
      ensures Valid() && env.heap == old(env.heap)
      ensures Step(r, State()) == SchnorrsigSign32Step(prims, env.tag, old(State()), sig, msg, keypair, aux)
    {
      match prims.schnorrsigSign32(env.heap[msg..msg + 32], env.heap[keypair..keypair + 96], env.heap[aux..aux + 32])
      case Trap(d) => r := Raise(d);
      case Done((bit, out)) =>
        Store(sig, out);
        r := Return(bit);
    }

    method SchnorrsigVerify(sig: nat, msg: nat, msglen: nat, pubkey: nat) returns (r: Outcome<Bit>)
      requires Valid() && sig + BIP340_SIG <= env.heap.Length && msg + msglen <= env.heap.Length
      requires pubkey + XONLY_KEY_LIB <= env.heap.Length
      modifies env
      ensures Valid() && env.heap == old(env.heap)
      ensures Step(r, State()) == SchnorrsigVerifyStep(prims, env.tag, old(State()), sig, msg, msglen, pubkey)
    {
      match prims.schnorrsigVerify(env.heap[sig..sig + 64], env.heap[msg..msg + msglen], env.heap[pubkey..pubkey + 64])
      case Trap(d) => r := Raise(d);
      case Done(bit) => r := Return(bit);
    }

    method Sha256Initialize(hash: nat)
      requires Valid() && hash + SHA256_LIB <= env.heap.Length
      modifies env.heap
      ensures Valid() && State() == Sha256InitializeStep(prims, old(State()), hash)
    {
      Store(hash, prims.sha256Initialize);
    }

    method Sha256Write(hash: nat, data: nat, size: nat)
      requires Valid() && hash + SHA256_LIB <= env.heap.Length && data + size <= env.heap.Length
      modifies env.heap
      ensures Valid() && State() == Sha256WriteStep(prims, old(State()), hash, data, size)
    {
      Store(hash, prims.sha256Write(env.heap[hash..hash + 104], env.heap[data..data + size]));
    }

    method Sha256Finalize(hash: nat, out: nat)
      requires Valid() && hash + SHA256_LIB <= env.heap.Length && out + MSG_HASH <= env.heap.Length
      modifies env.heap
      ensures Valid() && State() == Sha256FinalizeStep(prims, old(State()), hash, out)
    {
      Store(out, prims.sha256Finalize(env.heap[hash..hash + 104]));
    }
  }
}
