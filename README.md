# nostr-wasm, modelled in Dafny

This project models the TypeScript side of nostr-wasm. That side wraps a
WebAssembly build of libsecp256k1. It has six parts:

- **The host runtime shim.** `emsimp` in `src/api/emsimp.ts` and its near copy
  `defineWasmEnv` in `src/api/wasm-env.ts` supply the four imports of the
  compiled module: `abort`, `memcpy`, `resize` and `write`. They also keep the
  fd table, the last fd-2 text (`s_error`), and the byte and word views over the
  module's heap.
- **The module's exports**, as `src/api/types.ts` documents them. The
  library's mathematics is left abstract. Each export writes only its output
  region and returns 0 or 1, or it traps. The model assumes that every trap is
  libsecp256k1's error callback, which writes its diagnostic to fd 2 and then
  calls the shim's `abort` (see `Wasm.Trapped` under "Left out").
- **The two facades.** `WasmSecp256k1` in `src/api/secp256k1.ts` and
  `NostrWasm` in `src/api/nostr.ts` each allocate fixed scratch regions once.
  Each call copies inputs into those regions, calls exports and reads results
  back. `with_keypair` then wipes the secret regions in a `finally`. The nostr
  facade adds `toHex`/`fromHex`, the serialisation that an event id commits
  to, `finalizeEvent` and `verifyEvent`.
- **The ABI constants** of `src/api/types.ts`: byte lengths, context flags and
  result codes.
- **The binding generator** `src/generate.ts`. It walks the AST of the
  Emscripten glue and fills the tables `h_types`, `h_imports` and `h_exports`,
  together with four scalar keys. It then deletes and overrides the two fd
  entries.
- **`concat`** of `src/gzipped.ts`.

## Layout

| file | module | models |
|---|---|---|
| host.dfy | Host | bytes, results, ASCII literals, JavaScript's integer-to-text conversion |
| memory.dfy | Memory | regions of linear memory, `set`, `fill`, `subarray`, `copyWithin`, and the little-endian word view |
| buffers.dfy | Buffers | the flattening of a list of buffers |
| abi.dfy | Abi | `ByteLens`, `Flags`, `BinaryResult` |
| shim.dfy | RuntimeShim | the shim (class `Shim`): both flavours, all four imports and the heap binder |
| wasm.dfy | Wasm | the export contracts as step functions over a `Machine` (heap bytes, log, allocator break), and the instance (class `Module`) |
| secp256k1.dfy | Secp256k1 | the `WasmSecp256k1` facade (class `WasmSecp256k1`), its step functions and lemmas |
| hex.dfy | Hex | `toHex`, `fromHex`, `parseInt(_, 16)` and ToUint8 |
| event_json.dfy | EventJson | the event-id template: UTF-8 (RFC 3629 section 3), `JSON.stringify` of strings and string arrays (ECMA-262 section 25.5.2.3; RFC 8259 section 7) |
| nostr.dfy | Nostr | the `NostrWasm` facade (class `NostrWasm`, events as class `Event`) and its step functions |
| nostr_properties.dfy | NostrProperties | what `getPublicKey`, `compute_event_id`, `finalizeEvent` and `verifyEvent` guarantee |
| generate.dfy | Generate | the generator's tables, string rules, AST and walk as functions |
| generate_properties.dfy | GenerateProperties | what the walk builds |
| generate_script.dfy | GenerateScript | the walk's loops as methods (class `Generator`), proved equal to the functions |
| gzipped.dfy | Gzipped | `concat` over a fresh array |

### Method and specification

Every method that changes state is proved against a step function. Take an
operation `X` on an instance `w`. Its method ensures
`Step(r, w.State()) == XStep(..., old(w.State()), ...)`. That pins down the
result, the exception message, every heap byte, the shim's log and the
allocator's break. The lemmas then state the properties over `XStep`. `Step`
pairs an `Outcome` with the machine after the call. An `Outcome` is
`Return(value)` or `Throw(message)`, which is how exceptions are modelled.

The exports' mathematics lives in a value of type `Wasm.Primitives`. Its
fields are functions from input bytes to `Done(result)` or `Trap(diagnostic)`.
The field `keypairXonlyPub` always returns 1 when it returns, as `types.ts`
documents, and so does `xonlyPubkeySerialize`. Instead of a result code, those
two functions return only the output bytes.

The byte lengths `PRIVATE_KEY` 32, `KEYPAIR_LIB` 96, `XONLY_KEY_LIB` 64,
`BIP340_SIG` 64, `XONLY_PUBKEY` 32, `MSG_HASH` 32 and `NONCE_ENTROPY` 32 are
the constants of `Abi` (`src/api/types.ts:13-31`). So are `SUCCESS` 1 and
`FAILURE` 0 (`src/api/types.ts:60-63`). `RANDOM_SEED` is 32, the length of
the random bytes that `src/api/secp256k1.ts:18,118` writes to the seed
region. `secp256k1-types.js` is not part of this model.

## Model

| member | source | states |
|---|---|---|
| Abi.Sha256StateSize | src/api/types.ts:32-37 | the SHA-256 state is 4·8 + 64 + 8 = 104 bytes |
| Abi.ContextFlagsTyped | src/api/types.ts:41-57 | every `Flags` member is typed as a context flag (low 8 bits equal 1), and so is `CONTEXT_SIGN \| CONTEXT_VERIFY`; that combination is 769 and does not carry the declassify bit |
| Abi.ContextBitsDistinct | src/api/types.ts:45-48 | the verify, sign and declassify data bits are pairwise distinct and lie outside the type mask |
| Buffers.FlattenSnoc | src/gzipped.ts:42-53 | appending one buffer appends its bytes to the flattening and adds its length to the total |
| Buffers.FlattenLength | src/gzipped.ts:41-47 | the flattening is exactly as long as the sum of the buffers' lengths |
| Buffers.FlattenAt | src/gzipped.ts:49-53 | byte j of buffer k lands at the sum of the earlier lengths plus j |
| Buffers.FlattenSmall | src/gzipped.ts:41-56 | no buffers flatten to nothing, and one buffer flattens to itself |
| Gzipped.TotalLengthAppend | src/gzipped.ts:42-45 | the total length of two lists of buffers is the sum of their totals |
| Gzipped.OffsetsTile | src/gzipped.ts:49-53 | the copy regions tile the output: the first starts at 0, each starts where the one before ends, and the last one ends at the total length, so each output byte is written exactly once |
| Gzipped.Set | src/gzipped.ts:51 | `set(src, index)` replaces bytes index..index+\|src\| with src and leaves the other bytes as they were |
| Gzipped.Concat | src/gzipped.ts:41-56 | `concat` returns a fresh array whose length is the sum of the lengths and whose contents are the buffers one after another; the copy loop ends with `index == size` |
| Host.Ascii | src/api/emsimp.ts:5-6 | a string literal becomes one byte per character, so its length is kept |
| Host.DecimalDigits | src/api/nostr.ts:145 | a natural number's decimal digits are never empty |
| Host.DigitCharInjective | src/api/nostr.ts:145 | distinct decimal digits print as distinct characters |
| Host.DecimalDigitsInjective | src/api/nostr.ts:145 | distinct naturals print as distinct digit strings |
| Host.DecimalDigitsNoSign | src/api/nostr.ts:145 | a digit string never starts with '-' |
| Host.NumberTextInjective | src/api/nostr.ts:145 | distinct integers (`created_at`, `kind`) print differently in the template literal |
| Memory.Read | src/api/secp256k1.ts:178-181 | `slice` of an in-bounds region returns its len bytes in order |
| Memory.Splice | src/api/secp256k1.ts:139 | `set(src, at)` puts src at at..at+\|src\| and changes no other byte |
| Memory.Fill | src/api/secp256k1.ts:148-149 | `fill(v, at, end)` sets every byte of the region to v and no other byte |
| Memory.Subarray | src/api/emsimp.ts:66 | `subarray(begin, end)` is exactly mem[begin..end] when in bounds, and is clamped otherwise |
| Memory.CopyWithin | src/api/emsimp.ts:40-41 | `copyWithin` keeps the memory's length (what it moves is stated by `CopyWithinMoves`) |
| Memory.CopyWithinMoves | src/api/emsimp.ts:40-41 | `memcpy(dst, src, n)` inside the heap moves exactly n bytes: afterwards dst..dst+n holds the old src..src+n even when the ranges overlap, and every other byte is unchanged |
| Memory.LeBytes | src/api/wasm-env.ts:91-98 | a word takes four bytes of the heap |
| Memory.StoreWord | src/api/emsimp.ts:83 | a store through the word view keeps the memory's length (what it stores is stated by `StoreThenLoad`) |
| Memory.StoreThenLoad | src/api/wasm-env.ts:91-98 | the byte and word views alias one buffer: the stored word reads back, every other word keeps its value, and no byte outside 4k..4k+3 changes |
| RuntimeShim.ConsoleTextShape | src/api/emsimp.ts:13-19 | a logged line is the tag followed by the text, with every NUL turned into '\n' and every other byte kept, so no NUL follows the tag |
| RuntimeShim.ShiftIndex | src/api/emsimp.ts:57-60 | JavaScript's `x >> 2` is the word index x / 4 for x below 2^31, and is negative for x from 2^31 up to 2^32 |
| RuntimeShim.RecordWords | src/api/emsimp.ts:55-63 | iovec i is read at words `(ip_iov + 8i) >> 2` (pointer) and `(ip_iov + 8i + 4) >> 2` (length), with `>>` as JavaScript's signed shift; the model's indices equal those shifts while the record lies below 2^31, and at or above 2^31 the source's index is negative; an unaligned `ip_iov` is rounded down to a word boundary |
| RuntimeShim.IovecChunks | src/api/emsimp.ts:55-70 | the loop visits exactly `nl_iovs` records |
| RuntimeShim.IovecTextLength | src/api/emsimp.ts:66-69 | the gathered text is never longer than the summed lengths, and is exactly as long when every referenced range lies inside the heap |
| RuntimeShim.Gather | src/api/emsimp.ts:55-70 | the `write` loop returns the concatenation, in iovec order, of the bytes [ptr, ptr+len) of each record, and the sum of the lengths |
| RuntimeShim.StoreCount | src/api/emsimp.ts:83 | storing the count keeps the heap's length |
| RuntimeShim.AbortMessage | src/api/emsimp.ts:36-38 | `abort` reports the tag and the last fd-2 text, or the tag and 'An unknown error occurred' when that text is empty |
| RuntimeShim.RoutedLastError | src/api/emsimp.ts:21-33 | a later fd-2 write replaces the last error, an fd-1 write leaves it alone, and each write logs one console line |
| RuntimeShim.Shim.Emsimp | src/api/emsimp.ts:5-6 | the emsimp shim tags with `s_tag + ': '` and starts with no error, an empty log and no heap bound |
| RuntimeShim.Shim.DefineWasmEnv | src/api/wasm-env.ts:3-4 | the wasm-env shim tags with `label + ': '` and starts the same way |
| RuntimeShim.Shim.Bind | src/api/wasm-env.ts:91-99 | binding installs the module's memory as the heap; the word view covers all of it, and the error and log are kept |
| RuntimeShim.Shim.Abort | src/api/emsimp.ts:36-38 | `abort` always throws: the tag and the last fd-2 text, or the tag and the unknown-error text |
| RuntimeShim.Shim.Resize | src/api/wasm-env.ts:44-46 | `resize(w)` throws for every w: 'Out of memory' after the tag in emsimp, and `Out of memory (resizing w)` in wasm-env |
| RuntimeShim.Shim.Memcpy | src/api/emsimp.ts:40-41 | the heap after `memcpy` is `copyWithin(dst, src, src + size)` of the heap before, done in place |
| RuntimeShim.Shim.Write | src/api/emsimp.ts:47-87 | for fd 1 or 2, `write` returns 0, stores the summed lengths modulo 2^32 at word `ip_written >> 2` (no other byte changes), sets the last error to the text on fd 2 only, and logs one line; for any other fd it throws with the text and changes neither the heap nor the log |
| RuntimeShim.Shim.Route | src/api/wasm-env.ts:74-81 | fd 1 and fd 2 are the only routed channels; any other descriptor throws and logs nothing |
| RuntimeShim.Shim.StoreU32 | src/api/wasm-env.ts:84 | a word store changes the heap as `StoreWord` does |
| RuntimeShim.WriteErrorThenAbort | src/api/emsimp.ts:23-38 | after a non-empty write to fd 2, `abort` throws exactly the tag followed by that text |
| Wasm.Trapped | src/api/emsimp.ts:23-38 | a trap inside an export reaches fd 2 and then `abort`: it throws the tag and the diagnostic, and the memory and break are unchanged |
| Wasm.MallocStep | src/api/emsimp.ts:43-45 | `malloc(n)` returns the old break and advances it by n when n bytes fit; otherwise the heap cannot grow and the shim's resize error is thrown; memory is unchanged either way |
| Wasm.SetStep | src/api/nostr.ts:236-238 | `set(src, at)` writes src at at when it fits and throws 'offset is out of bounds' (leaving memory unchanged) when it does not; it writes nothing outside that region |
| Wasm.Wrote | src/api/types.ts:78-90 | an export's output replaces its region and nothing else |
| Wasm.ContextRandomizeStep | src/api/secp256k1.ts:121 | `context_randomize` writes only the context region |
| Wasm.KeypairCreateStep | src/api/types.ts:78-90 | `keypair_create` writes only the keypair region; when it does not trap it returns the library's result code and leaves the library's keypair of the 32 key bytes there |
| Wasm.KeypairXonlyPubStep | src/api/types.ts:92-111 | `keypair_xonly_pub` writes only the x-only key region and returns 1 whenever it returns, as documented |
| Wasm.XonlyPubkeyParseStep | src/api/types.ts:113-127 | `xonly_pubkey_parse` writes only the x-only key region and returns the library's verdict on the 32 input bytes (0 when they are not a valid key) |
| Wasm.XonlyPubkeySerializeStep | src/api/types.ts:129-141 | `xonly_pubkey_serialize` writes only its 32-byte output and returns 1 whenever it returns, as documented |
| Wasm.SchnorrsigSign32Step | src/api/types.ts:143-173 | `schnorrsig_sign32` writes only the 64-byte signature; it returns the library's code and signature for the hash, keypair and auxiliary randomness in their regions |
| Wasm.SchnorrsigVerifyStep | src/api/types.ts:175-191 | `schnorrsig_verify` writes nothing and returns the library's verdict on the signature, message and key regions |
| Wasm.Sha256InitializeStep | src/api/types.ts:193 | `sha256_initialize` writes only the 104-byte state, with the initial state |
| Wasm.Sha256WriteStep | src/api/types.ts:194 | `sha256_write` writes only the state, which absorbs the size bytes at data |
| Wasm.Sha256FinalizeStep | src/api/types.ts:195 | `sha256_finalize` writes only the 32-byte output, with the digest of the state |
| Wasm.Module.constructor | src/api/secp256k1.ts:85-88 | an instance over a bound shim whose allocator starts at the post-`init()` break |
| Wasm.Module.Store | src/api/secp256k1.ts:139 | an in-bounds copy into the heap is `Splice` of the old heap |
| Wasm.Module.Set | src/api/nostr.ts:236 | `ATU8_HEAP.set` behaves as `SetStep` |
| Wasm.Module.FillRegion | src/api/secp256k1.ts:148-149 | `ATU8_HEAP.fill` changes the machine exactly as `Fill` does |
| Wasm.Module.Slice | src/api/secp256k1.ts:178-181 | `ATU8_HEAP.slice` returns the region's bytes |
| Wasm.Module.Raise | src/api/emsimp.ts:36-38 | a trap behaves as `Trapped`; the heap object is kept |
| Wasm.Module.Malloc | src/types.ts:28-30 | `malloc` behaves as `MallocStep` |
| Wasm.Module.Take | src/api/emsimp.ts:43-45 | under emsimp, `malloc(n)` returns the old break and advances it when n bytes fit, and otherwise throws the tag and 'Out of memory'; heap bytes are unchanged |
| Wasm.Module.Take4 | src/api/secp256k1.ts:90-103 | four `malloc`s in a row succeed exactly when the four sizes fit together, and then give consecutive regions; otherwise they throw 'Out of memory' after the tag |
| Wasm.Module.ContextCreate | src/api/types.ts:66-76 | `context_create` mallocs the context (passing on the allocator's error) and writes the library's context there |
| Wasm.Module.ContextRandomize | src/api/secp256k1.ts:121 | behaves as `ContextRandomizeStep` |
| Wasm.Module.KeypairCreate | src/api/types.ts:78-90 | behaves as `KeypairCreateStep` |
| Wasm.Module.KeypairXonlyPub | src/api/types.ts:92-111 | behaves as `KeypairXonlyPubStep` |
| Wasm.Module.XonlyPubkeyParse | src/api/types.ts:113-127 | behaves as `XonlyPubkeyParseStep` |
| Wasm.Module.XonlyPubkeySerialize | src/api/types.ts:129-141 | behaves as `XonlyPubkeySerializeStep` |
| Wasm.Module.SchnorrsigSign32 | src/api/types.ts:143-173 | behaves as `SchnorrsigSign32Step` |
| Wasm.Module.SchnorrsigVerify | src/api/types.ts:175-191 | behaves as `SchnorrsigVerifyStep` and leaves the heap alone |
| Wasm.Module.Sha256Initialize | src/api/types.ts:193 | behaves as `Sha256InitializeStep` |
| Wasm.Module.Sha256Write | src/api/types.ts:194 | behaves as `Sha256WriteStep` |
| Wasm.Module.Sha256Finalize | src/api/types.ts:195 | behaves as `Sha256FinalizeStep` |
| Secp256k1.Consecutive | src/api/secp256k1.ts:90-103 | the allocator's layout starts with the key region at the break |
| Secp256k1.LayoutDisjoint | src/api/secp256k1.ts:90-108 | the scratch regions and the context are pairwise disjoint and lie inside the heap |
| Secp256k1.ConsecutiveValid | src/api/secp256k1.ts:90-108 | the consecutive layout is valid whenever 384 bytes of scratch plus the context fit |
| Secp256k1.UseStep | src/api/secp256k1.ts:167-168 | a callback keeps the heap's length and the break |
| Secp256k1.Wiped | src/api/secp256k1.ts:146-150 | the wipe keeps the heap's length, the log and the break |
| Secp256k1.WithKeypairStep | src/api/secp256k1.ts:132-154 | `with_keypair` keeps the heap's length and the break |
| Secp256k1.RandomizeStep | src/api/secp256k1.ts:116-124 | `randomize_context` keeps the heap's length and the break |
| Secp256k1.GetPublicKeyStep | src/api/secp256k1.ts:160-182 | `get_public_key` keeps the heap's length and the break |
| Secp256k1.PublicKeyStep | src/api/secp256k1.ts:165-181 | the part after randomization keeps the heap's length and the break |
| Secp256k1.SignStep | src/api/secp256k1.ts:184-215 | `sign` keeps the heap's length and the break |
| Secp256k1.SignedStep | src/api/secp256k1.ts:188-214 | the part after randomization keeps the heap's length and the break |
| Secp256k1.VerifyStep | src/api/secp256k1.ts:217-246 | `verify` keeps the heap's length and the break |
| Secp256k1.WipedKeeps | src/api/secp256k1.ts:146-150 | the wipe changes no byte outside the key and keypair regions |
| Secp256k1.WithKeypairWipes | src/api/secp256k1.ts:132-154 | whether keypair creation or the callback trapped or returned, afterwards every key byte is 1 and every keypair byte is 2 |
| Secp256k1.WithKeypairForwards | src/api/secp256k1.ts:142-153 | when `keypair_create` does not trap, `with_keypair` returns exactly what the callback returns on the created keypair, whether `keypair_create` returned 0 or 1 |
| Secp256k1.WithKeypairFrame | src/api/secp256k1.ts:132-154 | `with_keypair` writes only the key, keypair and callback regions |
| Secp256k1.WithKeypairXonly | src/api/secp256k1.ts:165-169 | when the x-only callback returns, the key's keypair and its x-only key exist, and the key sits in its region |
| Secp256k1.WithKeypairSign | src/api/secp256k1.ts:195-205 | when the signing callback returns, its code and the signature region are the library's for the hash and entropy in their regions |
| Secp256k1.RandomizeFirst | src/api/secp256k1.ts:116-124 | when randomization fails, `get_public_key` and `sign` throw its message with the key region untouched: the key is never copied |
| Secp256k1.RandomizeOutcome | src/api/secp256k1.ts:121-123 | randomization throws 'Failed to randomize context' exactly when the export returns 0, the abort text when it traps, and returns on 1 |
| Secp256k1.PublicKeyValue | src/api/secp256k1.ts:165-181 | after randomization, a returned key is the serialized x-only key of sk |
| Secp256k1.GetPublicKeyValue | src/api/secp256k1.ts:160-182 | a key that `get_public_key` returns is the serialized x-only key of sk |
| Secp256k1.GetPublicKeyWipes | src/api/secp256k1.ts:160-182 | once randomization succeeded, `get_public_key` ends with both secret regions wiped on every path |
| Secp256k1.AbortIsNotOwn | src/api/secp256k1.ts:122 | a trap's message starts with the facade tag, so it is none of the facade's own messages |
| Secp256k1.PublicKeyNeverReportsInvalidKey | src/api/secp256k1.ts:165-172 | after randomization, 'sk_to_pk: Invalid private key' is never thrown |
| Secp256k1.GetPublicKeyNeverReportsInvalidKey | src/api/secp256k1.ts:165-172 | 'sk_to_pk: Invalid private key' is never thrown: `keypair_xonly_pub` returns 1 whenever it returns, so a bad key surfaces only as a trap |
| Secp256k1.SignedValue | src/api/secp256k1.ts:188-214 | after randomization, a returned signature is the library's signature of hash under sk with ent |
| Secp256k1.SignValue | src/api/secp256k1.ts:184-215 | a signature that `sign` returns is the library's signature of hash under sk with ent |
| Secp256k1.SignWipes | src/api/secp256k1.ts:184-215 | once randomization succeeded, `sign` ends with both secret regions wiped on every path |
| Secp256k1.VerifyOutcome | src/api/secp256k1.ts:217-246 | when parsing does not trap, `verify` throws 'BIP340 verify: Invalid public key' exactly when it returns 0; otherwise it returns whether the library accepts the signature over the 32-byte hash, so a bad signature gives false |
| Secp256k1.VerifyFrame | src/api/secp256k1.ts:217-246 | `verify` writes only the signature, hash, pubkey scratch and parsed key regions; it does not touch the key, keypair, seed, entropy or context, nor move the break |
| Secp256k1.WasmSecp256k1.constructor | src/api/secp256k1.ts:85-108 | a facade over an instance and a valid layout |
| Secp256k1.WasmSecp256k1.Instantiate | src/api/secp256k1.ts:85-108 | setup succeeds exactly when the eight regions (384 bytes) and a context fit above the break; the layout is then the allocator's consecutive one and the break sits above the context; otherwise setup throws the tag and 'Out of memory' |
| Secp256k1.WasmSecp256k1.PlaceSignInputs | src/api/secp256k1.ts:188-192 | the hash and the entropy go into their regions, and nothing else changes |
| Secp256k1.WasmSecp256k1.PlaceVerifyInputs | src/api/secp256k1.ts:218-225 | the signature, hash and key go into their regions, and nothing else changes |
| Secp256k1.WasmSecp256k1.RandomizeContext | src/api/secp256k1.ts:116-124 | behaves as `RandomizeStep` |
| Secp256k1.WasmSecp256k1.RunUse | src/api/secp256k1.ts:167-168 | behaves as `UseStep` |
| Secp256k1.WasmSecp256k1.WithKeypair | src/api/secp256k1.ts:132-154 | behaves as `WithKeypairStep`: the body stops at the first exception, and the wipe runs in every case |
| Secp256k1.WasmSecp256k1.GetPublicKey | src/api/secp256k1.ts:160-182 | behaves as `GetPublicKeyStep` |
| Secp256k1.WasmSecp256k1.PublicKey | src/api/secp256k1.ts:165-181 | behaves as `PublicKeyStep` |
| Secp256k1.WasmSecp256k1.Sign | src/api/secp256k1.ts:184-215 | behaves as `SignStep`, with a missing `ent` defaulting to the fresh random bytes |
| Secp256k1.WasmSecp256k1.Signed | src/api/secp256k1.ts:188-214 | behaves as `SignedStep` |
| Secp256k1.WasmSecp256k1.Verify | src/api/secp256k1.ts:217-246 | behaves as `VerifyStep` |
| Hex.HexDigit | src/api/nostr.ts:267 | `toString(16)` digits are lowercase hex digits |
| Hex.DigitValue | src/api/nostr.ts:274 | a base-16 digit has a value below 16 |
| Hex.HexDigitValue | src/api/nostr.ts:265-276 | parsing the digit for d gives back d |
| Hex.ByteHexDigits | src/api/nostr.ts:267 | each byte becomes its high digit and then its low digit, zero-padded |
| Hex.ToHexShape | src/api/nostr.ts:265-270 | `toHex` is twice as long as its input, all lowercase, with byte i's two digits at 2i and 2i+1 |
| Hex.ToHexDigits | src/api/nostr.ts:265-270 | byte i's digits sit at 2i and 2i+1 of a text of length 2n |
| Hex.ToHexLower | src/api/nostr.ts:265-270 | every character of `toHex` is a lowercase digit |
| Hex.TrimStart | src/api/nostr.ts:274 | trimming white space never lengthens the slice |
| Hex.DigitPrefix | src/api/nostr.ts:274 | `parseInt` reads only the leading run of base-16 digits |
| Hex.ToUint8 | src/api/nostr.ts:273 | a value that fits a byte is stored unchanged |
| Hex.FromHex | src/api/nostr.ts:272-276 | `fromHex` has \|hex\|/2 bytes (a trailing odd character is dropped), and byte i is ToUint8 of `parseInt(hex[2i..2i+2], 16)` |
| Hex.ParsePair | src/api/nostr.ts:274 | two digits (other than "0x") parse to 16·hi + lo |
| Hex.FromHexAt | src/api/nostr.ts:272-276 | where characters 2i and 2i+1 are digits (not "0x"), byte i is their value |
| Hex.FromHexToHex | src/api/nostr.ts:265-276 | `fromHex(toHex(b)) == b` for every byte sequence b |
| Hex.ToHexFromHex | src/api/nostr.ts:265-276 | a lowercase hex string of even length is the `toHex` of its `fromHex` |
| Hex.ParseDigitJunk | src/api/nostr.ts:274 | a digit followed by a non-digit reads the digit, unless the pair is "0x" |
| Hex.ParseLeadDigit | src/api/nostr.ts:274 | white space or a sign before a digit reads the digit, negated after '-' |
| Hex.ParseNaN | src/api/nostr.ts:274 | "0x", and a slice starting with no digit, sign or white space, are NaN |
| Hex.FromHexOddSlices | src/api/nostr.ts:272-276 | `fromHex` decodes "-f" to 241 and "0x" to 0, and drops the last character of "abc" |
| EventJson.Utf8Char | src/api/nostr.ts:144 | UTF-8 encodes a scalar value in one to four bytes |
| EventJson.Utf8CharDecodes | src/api/nostr.ts:144 | the lead byte announces the length, and the bytes give back the scalar value |
| EventJson.Utf8CharPrefixFree | src/api/nostr.ts:144 | no character's encoding is a proper prefix of another's |
| EventJson.Utf8Injective | src/api/nostr.ts:144 | different strings encode to different bytes |
| EventJson.Utf8Append | src/api/nostr.ts:144 | encoding distributes over concatenation |
| EventJson.Utf8Ascii | src/api/nostr.ts:144 | ASCII text encodes to its character codes, one byte each |
| EventJson.EscapeChar | src/api/nostr.ts:147 | a character's JSON form is non-empty and never starts with a quote |
| EventJson.Quote | src/api/nostr.ts:147 | `JSON.stringify` of a string starts with a quote and has at least two characters |
| EventJson.EscapeCharShape | src/api/nostr.ts:147 | an escape reads back: a plain character is itself, `\u00XY` stands for the control character XY, and a two-character escape names its character |
| EventJson.EscapeCharPrefixFree | src/api/nostr.ts:147 | no escape is a proper prefix of another |
| EventJson.EscapedPrefixFree | src/api/nostr.ts:147 | the escaped text ends at the first unescaped quote |
| EventJson.QuotePrefixFree | src/api/nostr.ts:147 | a quoted string can be read off the front of any text that starts with it |
| EventJson.StringArray | src/api/nostr.ts:145-147 | `JSON.stringify` of a string array starts with '[' and has at least two characters |
| EventJson.QuotedListPrefixFree | src/api/nostr.ts:145-147 | a list of quoted strings can be read off the front of what follows it |
| EventJson.StringArrayPrefixFree | src/api/nostr.ts:145-147 | a string array's JSON can be read off the front of what follows it |
| EventJson.TagsJson | src/api/nostr.ts:145-147 | `JSON.stringify(tags)` starts with '[' and has at least two characters |
| EventJson.RowListPrefixFree | src/api/nostr.ts:145-147 | a list of tag rows can be read off the front of what follows it |
| EventJson.TagsJsonPrefixFree | src/api/nostr.ts:145-147 | the tags' JSON can be read off the front of what follows it |
| EventJson.NumberTextNoComma | src/api/nostr.ts:145 | a number's text has no comma |
| EventJson.DigitsNoComma | src/api/nostr.ts:145 | a digit string has no comma |
| EventJson.MessageTextInjective | src/api/nostr.ts:144-148 | the template `[0,"pubkey",created_at,kind,tags,content]` determines every field, provided the pubkey (spliced in unescaped) holds no quote |
| EventJson.MessageInjective | src/api/nostr.ts:144-148 | the hashed UTF-8 bytes determine the pubkey, both numbers, the tags and the content, under the same proviso |
| Nostr.Consecutive | src/api/nostr.ts:88-103 | the allocator's layout starts with the key region at the break |
| Nostr.LayoutDisjoint | src/api/nostr.ts:88-108 | the eight scratch regions and the context are pairwise disjoint and lie inside the heap |
| Nostr.ConsecutiveValid | src/api/nostr.ts:88-108 | the consecutive layout is valid whenever 456 bytes of scratch plus the context fit |
| Nostr.Event.constructor | src/api/nostr.ts:182 | an event object holding the given fields |
| Nostr.Wiped | src/api/nostr.ts:133-137 | the wipe keeps the heap's length, the log and the break |
| Nostr.CreatedStep | src/api/nostr.ts:126-129 | copying the key and creating the keypair keeps the layout ready and the break |
| Nostr.XonlyStep | src/api/nostr.ts:165-167 | `with_keypair` around `keypair_xonly_pub` keeps the layout ready and the break |
| Nostr.GetPublicKeyStep | src/api/nostr.ts:162-180 | `getPublicKey` keeps the layout ready and the break |
| Nostr.SerializedKeyStep | src/api/nostr.ts:173-179 | serializing and reading the key keeps the layout ready and the break |
| Nostr.HashedStep | src/api/nostr.ts:151-153 | the three SHA-256 calls keep the layout ready, the break and the log |
| Nostr.DigestStep | src/api/nostr.ts:149-155 | hashing a message never lowers the break and keeps the heap's length |
| Nostr.StoredDigestStep | src/api/nostr.ts:150-155 | copying, hashing and reading back keep the break and the heap's length |
| Nostr.ComputeEventIdStep | src/api/nostr.ts:143-156 | `compute_event_id` never lowers the break and keeps the heap's length |
| Nostr.KeyStep | src/api/nostr.ts:185-194 | the key part of the callback keeps the layout ready and the break |
| Nostr.SignStep | src/api/nostr.ts:200-217 | the signing part of the callback keeps the layout ready and the break |
| Nostr.FinalizeCallbackStep | src/api/nostr.ts:183-218 | the callback of `finalizeEvent` never lowers the break |
| Nostr.FinalizeBodyStep | src/api/nostr.ts:124-132 | the `try` block never lowers the break |
| Nostr.FinalizeStep | src/api/nostr.ts:182-224 | `finalizeEvent`, for a given entropy choice, never lowers the break |
| Nostr.Finished | src/api/nostr.ts:133-140 | the `finally` and the signature read keep the break |
| Nostr.FinalizeEventStep | src/api/nostr.ts:200-203 | `finalizeEvent` as written never lowers the break |
| Nostr.FinalizeEventIntendedStep | src/api/nostr.ts:200-203 | `finalizeEvent` with the passed entropy copied in never lowers the break |
| Nostr.VerifyStoredStep | src/api/nostr.ts:236-260 | the copies, parse and verification keep the break |
| Nostr.PlaceVerifyStep | src/api/nostr.ts:236-238 | the three copies keep the break |
| Nostr.CheckSignatureStep | src/api/nostr.ts:241-260 | the parse and verification keep the break |
| Nostr.VerifyEventStep | src/api/nostr.ts:226-261 | `verifyEvent` never lowers the break |
| Nostr.VerifyDigestStep | src/api/nostr.ts:230-260 | the hash, id check and stored part never lower the break |
| Nostr.VerifyHashedStep | src/api/nostr.ts:231-260 | the id check and stored part keep the break |
| Nostr.VerifyEventIntendedStep | src/api/nostr.ts:226-261 | `verifyEvent` with the full id comparison never lowers the break |
| Nostr.VerifyDigestIntendedStep | src/api/nostr.ts:230-260 | the same, once the message is serialized |
| Nostr.NostrWasm.constructor | src/api/nostr.ts:83-108 | a facade over an instance and a valid layout whose context lies below the break |
| Nostr.NostrWasm.Instantiate | src/api/nostr.ts:83-108 | setup succeeds exactly when the eight regions (456 bytes) and a context fit above the break; the layout is then the allocator's consecutive one; otherwise setup throws the tag and 'Out of memory' |
| Nostr.NostrWasm.Created | src/api/nostr.ts:126-129 | behaves as `CreatedStep` |
| Nostr.NostrWasm.Wipe | src/api/nostr.ts:133-137 | the machine becomes `Wiped` of the old one |
| Nostr.NostrWasm.Xonly | src/api/nostr.ts:165-167 | behaves as `XonlyStep` |
| Nostr.NostrWasm.GetPublicKey | src/api/nostr.ts:162-180 | behaves as `GetPublicKeyStep` |
| Nostr.NostrWasm.SerializeKey | src/api/nostr.ts:173-179 | behaves as `SerializedKeyStep` |
| Nostr.NostrWasm.Hash | src/api/nostr.ts:151-153 | the machine becomes `HashedStep` of the old one |
| Nostr.NostrWasm.Digest | src/api/nostr.ts:149-155 | behaves as `DigestStep` |
| Nostr.NostrWasm.StoredDigest | src/api/nostr.ts:150-155 | behaves as `StoredDigestStep` |
| Nostr.NostrWasm.ComputeEventId | src/api/nostr.ts:143-156 | behaves as `ComputeEventIdStep` |
| Nostr.NostrWasm.Key | src/api/nostr.ts:185-194 | behaves as `KeyStep` |
| Nostr.NostrWasm.SignHash | src/api/nostr.ts:200-217 | behaves as `SignStep` |
| Nostr.NostrWasm.FinalizeCallback | src/api/nostr.ts:183-218 | the outcome, the machine and the event object are as in `FinalizeCallbackStep` |
| Nostr.NostrWasm.FinalizeBody | src/api/nostr.ts:124-132 | the outcome, the machine and the event object are as in `FinalizeBodyStep` |
| Nostr.NostrWasm.Finalize | src/api/nostr.ts:182-224 | the outcome, the machine and the event object are as in `FinalizeStep` |
| Nostr.NostrWasm.Finish | src/api/nostr.ts:133-140 | the outcome, the machine and the event object are as in `Finished` |
| Nostr.NostrWasm.ReadSignature | src/api/nostr.ts:219-223 | the event's sig becomes the hex of the signature region, and no other field changes |
| Nostr.NostrWasm.FinalizeEvent | src/api/nostr.ts:182-224 | the outcome, the machine and the event object are as in `FinalizeEventStep` |
| Nostr.NostrWasm.FinalizeEventIntended | src/api/nostr.ts:182-224 | the outcome, the machine and the event object are as in `FinalizeEventIntendedStep` |
| Nostr.NostrWasm.CheckId | src/api/nostr.ts:231-233 | the comparison loop returns exactly when every decoded id byte equals the computed byte at its position, and throws 'id is invalid' otherwise |
| Nostr.NostrWasm.VerifyStored | src/api/nostr.ts:236-260 | behaves as `VerifyStoredStep` |
| Nostr.NostrWasm.PlaceVerifyInputs | src/api/nostr.ts:236-238 | behaves as `PlaceVerifyStep` |
| Nostr.NostrWasm.CheckSignature | src/api/nostr.ts:241-260 | behaves as `CheckSignatureStep` |
| Nostr.NostrWasm.VerifyEvent | src/api/nostr.ts:226-261 | behaves as `VerifyEventStep` |
| Nostr.NostrWasm.VerifyDigest | src/api/nostr.ts:230-260 | behaves as `VerifyDigestStep` |
| Nostr.NostrWasm.VerifyEventIntended | src/api/nostr.ts:226-261 | behaves as `VerifyEventIntendedStep` |
| Nostr.NostrWasm.VerifyDigestIntended | src/api/nostr.ts:230-260 | behaves as `VerifyDigestIntendedStep` |
| NostrProperties.FirstBytes | src/api/nostr.ts:169 | the facade's messages and the shim's tag differ in their first byte |
| NostrProperties.ShimIsNotOwn | src/api/nostr.ts:63 | an abort or out-of-memory message starts with 'nostr-wasm: ', so it is none of the facade's own messages |
| NostrProperties.WipedFills | src/api/nostr.ts:135-136 | on a valid layout, the wipe sets every key byte to 1 and every keypair byte to 2 |
| NostrProperties.WipedKeeps | src/api/nostr.ts:133-137 | the wipe changes no byte outside the key and keypair regions |
| NostrProperties.GetPublicKeyWipes | src/api/nostr.ts:119-141 | `getPublicKey` ends with both secret regions wiped on every path: a trap in any export, a failed check, or a returned key |
| NostrProperties.FinalizeWipes | src/api/nostr.ts:119-141 | `finalizeEvent` ends with both secret regions wiped on every path, including a failed signature and a heap that cannot grow |
| NostrProperties.CreatedValue | src/api/nostr.ts:126-129 | keypair creation returns exactly when the library does not trap, and leaves sk's keypair in its region and the entropy region untouched |
| NostrProperties.XonlyValue | src/api/nostr.ts:165-167 | the x-only callback returns 1 exactly when keypair creation and the x-only key do not trap, and then sk's x-only key sits in its region |
| NostrProperties.GetPublicKeyValue | src/api/nostr.ts:162-180 | `getPublicKey` returns exactly when sk has a public key, and returns that key |
| NostrProperties.GetPublicKeyNeverReportsFailure | src/api/nostr.ts:162-170 | 'failed to get pubkey from keypair' is never thrown: the x-only export returns 1 whenever it returns |
| NostrProperties.DigestFits | src/api/nostr.ts:149-155 | hashing returns exactly when the message fits below the end of the heap; otherwise it throws the shim's out-of-memory error and changes nothing |
| NostrProperties.DigestValue | src/api/nostr.ts:149-155 | a returned hash is the SHA-256 digest of the message; it is also left in the hash region, and the message stays allocated at the old break |
| NostrProperties.ComputeEventIdOutcome | src/api/nostr.ts:143-156 | `compute_event_id` returns exactly when the serialized event fits, and then returns the digest of its UTF-8 bytes and leaves it in the hash region; otherwise it throws and changes nothing |
| NostrProperties.DigestKeeps | src/api/nostr.ts:149-155 | hashing changes no byte below the old break except the SHA-256 state and the hash region |
| NostrProperties.ComputeEventIdKeeps | src/api/nostr.ts:143-156 | `compute_event_id` changes no byte below the old break except the SHA-256 state and the hash region |
| NostrProperties.KeyValue | src/api/nostr.ts:185-195 | the key part of the callback returns exactly when the x-only key and its serialization do not trap, and returns the serialized key of the keypair in its region |
| NostrProperties.SignValue | src/api/nostr.ts:200-217 | signing uses the hash and keypair regions and the entropy region's contents (or the fresh bytes); it returns exactly on 1, throws 'failed to sign' on 0, and leaves the signature in its region |
| NostrProperties.KeyedWith | src/api/nostr.ts:195 | the event with the pubkey set changes no other field |
| NostrProperties.Signed | src/api/nostr.ts:182-224 | the signer's event exists exactly when sk has a public key and the signature of its id exists |
| NostrProperties.SignedTailValue | src/api/nostr.ts:198-217 | after the pubkey is set, the id is computed and signing it returns exactly when the signature exists |
| NostrProperties.SignedTailSignature | src/api/nostr.ts:198-217 | the same tail leaves a returned signature in its region, and throws 'failed to sign' when the signer returns 0 |
| NostrProperties.SignOnHashed | src/api/nostr.ts:206-217 | signing a machine whose regions hold a digest, keypair and entropy behaves as the library's signature of that digest |
| NostrProperties.CallbackValue | src/api/nostr.ts:183-218 | the callback returns exactly when the keypair has a key, the message fits and signing succeeds, and sets pubkey and id |
| NostrProperties.CallbackSignature | src/api/nostr.ts:183-218 | the callback leaves a returned signature in its region; when signing returns 0 it throws 'failed to sign' with pubkey and id already set |
| NostrProperties.CreatedParts | src/api/nostr.ts:124-132 | keypair creation followed by the callback, stated in terms of sk |
| NostrProperties.FinalizeBodyValue | src/api/nostr.ts:124-132 | the `try` block's outcome is the callback's on sk's keypair when creation does not trap |
| NostrProperties.FinalizeBodySignature | src/api/nostr.ts:124-132 | in the `try` block, a returned signature is the signature of the id under sk, and a 0 from the signer throws 'failed to sign' |
| NostrProperties.FinishedValue | src/api/nostr.ts:133-140 | after the callback, an exception passes on with the event as the callback left it; otherwise the signature, which the wipe does not touch, is read into the event |
| NostrProperties.FinalizeValue | src/api/nostr.ts:182-224 | `finalizeEvent` returns exactly when the signer's event exists and its message fits; the event is then that event: the pubkey of sk, the id of the event with that pubkey (assigned first), and the signature of that id |
| NostrProperties.SignedShape | src/api/nostr.ts:195-198 | the signer's event, part by part; only pubkey and id enter the id's message |
| NostrProperties.FinalizeThrowKeepsSig | src/api/nostr.ts:219-223 | a `finalizeEvent` that throws never sets sig and changes no field other than pubkey and id |
| NostrProperties.FinalizeSignFailure | src/api/nostr.ts:206-217 | when signing returns 0, `finalizeEvent` throws 'failed to sign', with pubkey and id set and sig not |
| NostrProperties.FinalizeEventStaleEntropy | src/api/nostr.ts:200-203 | as written, a passed `ent` is never copied: the signature uses whatever the entropy region held before |
| NostrProperties.FinalizeEventIgnoresEntropy | src/api/nostr.ts:200-203 | as written, the result of `finalizeEvent` is the same for every passed `ent` |
| NostrProperties.FinalizeEventFreshEntropy | src/api/nostr.ts:200-203 | without `ent`, `finalizeEvent` signs with the fresh random bytes |
| NostrProperties.FinalizeEventIntendedValue | src/api/nostr.ts:182-224 | with the entropy copied in, `finalizeEvent` returns exactly when the signer's event for `ent` (or the random bytes) exists and fits, and produces that event |
| NostrProperties.IdAcceptedIsPrefix | src/api/nostr.ts:231-233 | the id check accepts exactly the prefixes of the computed digest, the empty id included |
| NostrProperties.AcceptedIdRestoresDigest | src/api/nostr.ts:237 | copying an accepted id over a hash region holding the digest leaves the digest there |
| NostrProperties.VerifyStoredValue | src/api/nostr.ts:236-260 | for a 64-byte sig, an id of at most 32 bytes and a 32-byte key, the stored part returns exactly when the key parses and the library accepts the signature over the id followed by the region's old tail; it throws 'pubkey is invalid' on a parse 0 and 'signature is invalid' on a verify 0 |
| NostrProperties.PlaceVerifyValue | src/api/nostr.ts:236-238 | the three copies succeed and leave the signature, the id over the hash region's head, and the key in their regions |
| NostrProperties.PlacedBytes | src/api/nostr.ts:236-238 | three copies into ordered, disjoint regions leave each region's bytes as copied |
| NostrProperties.CheckSignatureValue | src/api/nostr.ts:241-260 | the checks return exactly when the key region parses and the signature region verifies over the hash region; parse 0 throws 'pubkey is invalid', and verify 0 throws 'signature is invalid' |
| NostrProperties.VerifyEventValue | src/api/nostr.ts:226-261 | for a 64-byte sig and a 32-byte key, `verifyEvent` returns exactly when the message fits, the id is accepted, the key parses and the library accepts the signature over the event's real digest |
| NostrProperties.VerifyDigestValue | src/api/nostr.ts:230-260 | the same, stated over a serialized message and decoded fields |
| NostrProperties.VerifyHashedValue | src/api/nostr.ts:231-260 | after hashing, it returns exactly when hashing returned, the id is accepted, the key parses and the signature verifies over the digest |
| NostrProperties.VerifyStoredNeverIdInvalid | src/api/nostr.ts:236-260 | after the id check, 'id is invalid' is never thrown |
| NostrProperties.VerifyEventIdCheck | src/api/nostr.ts:227-233 | `verifyEvent` throws 'id is invalid' exactly when the message fits and the decoded id is not a prefix of the event's digest |
| NostrProperties.VerifyEventEmptyId | src/api/nostr.ts:231-233 | as written, an event with an empty id verifies exactly when the same event with its correct id does |
| NostrProperties.VerifyEventIntendedAgrees | src/api/nostr.ts:231-233 | the full comparison agrees with the loop on every 32-byte id |
| NostrProperties.VerifyEventIntendedValue | src/api/nostr.ts:226-261 | with the full comparison, `verifyEvent` returns exactly when the message fits, the id is the event's digest, the key parses and the signature verifies over that digest |
| NostrProperties.VerifyEventIntendedRejectsEmptyId | src/api/nostr.ts:226-261 | with the full comparison, an event with an empty id never verifies |
| Generate.EmptyDict | src/generate.ts:31-33 | a fresh table is well formed and empty |
| Generate.Put | src/generate.ts:107-110 | `h[k] = v` maps k to v; a new key goes last, and an existing key keeps its place |
| Generate.Without | src/generate.ts:170-172 | removing a key from the key order keeps exactly the other keys |
| Generate.WithoutDistinct | src/generate.ts:170-172 | removing a key keeps the key order duplicate-free |
| Generate.Delete | src/generate.ts:170-172 | `delete h[k]` removes k and its value, keeps every other entry, and keeps the table well formed |
| Generate.ReplaceFirstAbsent | src/generate.ts:59 | `replace` leaves a string without the pattern unchanged |
| Generate.ReplaceFirstAt | src/generate.ts:59 | `replace` with a string pattern replaces only the first occurrence and keeps what is before and after it |
| Generate.ExportType | src/generate.ts:61-62 | `export_type` is the known type for `_malloc`, `_free`, `_sbrk` and `wasmMemory`, and 'Function' exactly for every other name |
| Generate.Initial | src/generate.ts:26-33 | the walk starts with empty, well-formed tables |
| GenerateProperties.RenameExportKeypairCreate | src/generate.ts:58-59 | `_secp256k1_keypair_create` becomes `keypair_create` |
| GenerateProperties.RenameExportMalloc | src/generate.ts:58-59 | `_malloc` becomes `malloc` |
| GenerateProperties.RenameExportMemory | src/generate.ts:58-59 | `wasmMemory` becomes `memory` |
| GenerateProperties.RenameExportStrips | src/generate.ts:58-59 | a leading '_' goes, and so does a 'secp256k1_' right after it |
| GenerateProperties.RenameExportUnchanged | src/generate.ts:58-59 | a name with no leading '_' and no 'wasmMemory' is unchanged |
| GenerateProperties.RenameExportReplacesFirst | src/generate.ts:59 | only the first 'wasmMemory' becomes 'memory' |
| GenerateProperties.LastFor | src/generate.ts:100-110 | the last property with value v names v |
| GenerateProperties.ImportsFoldOk | src/generate.ts:100-111 | the `wasmImports` loop throws exactly when some property is a spread element |
| GenerateProperties.ImportsByValue | src/generate.ts:98-111 | each `key: value` sets `h_imports[value] = [key, 'g_imports.' + H_RENAME_IMPORTS[value]]`, and a later property with the same value wins; a value outside H_TYPES gets `h_types[value] = 'unknown'`; nothing else changes |
| GenerateProperties.LastAssign | src/generate.ts:71-85 | the last assignment to n found is an export assignment to n |
| GenerateProperties.ExportsFoldOk | src/generate.ts:71-85 | the arrow-body loop throws exactly when an export assignment's target is not a plain identifier |
| GenerateProperties.ExportsLastWins | src/generate.ts:64-90 | each assignment `name = x[symbol]` sets `h_exports[name] = rename_export(name) + ": g_exports['symbol']"`, and a later duplicate overwrites an earlier one; nothing else changes |
| GenerateProperties.SeekIsLastReturn | src/generate.ts:140-146 | the seek constant is the literal of the last return statement in `_fd_seek`; without one nothing changes, and a bare `return;` throws |
| GenerateProperties.PatchValue | src/generate.ts:170-176 | the patch throws exactly when an fd entry is missing from `h_imports`; otherwise both fd names leave `h_types`, and their imports keep symbol and place and become arrows returning the recorded constants; nothing else changes |
| GenerateProperties.InterfaceNamesMembers | src/generate.ts:207-213 | a name is listed exactly when it is recorded and not in H_KNOWN_EXPORT_TYPES |
| GenerateProperties.ExportsInterfaceOmitsKnown | src/generate.ts:207-213 | the exports interface has one line per recorded export outside H_KNOWN_EXPORT_TYPES, and no line for a known name |
| GenerateProperties.FoldKeeps | src/generate.ts:64-168 | a loop keeps the tables' invariant when each of its steps does |
| GenerateProperties.TopStepKeeps | src/generate.ts:64-167 | one top-level statement keeps the invariant: the tables are well formed and every `h_types` entry is an 'unknown' for an import outside H_TYPES |
| GenerateProperties.CollectKeeps | src/generate.ts:64-168 | the whole walk keeps that invariant |
| GenerateProperties.ImportsInterfaceUnknown | src/generate.ts:200-205 | the imports interface lists exactly the imports outside H_TYPES, each as `name: unknown;`, and never the two fd imports |
| GenerateScript.Ran | src/generate.ts:64-168 | a finished walk holds its state, and a thrown one holds none |
| GenerateScript.Generator.constructor | src/generate.ts:26-33 | the script's state starts as `Initial` |
| GenerateScript.Generator.VisitArrowBody | src/generate.ts:71-88 | the statement loop ends as the fold of `ExportStep` over the statements |
| GenerateScript.Generator.VisitArguments | src/generate.ts:66-90 | the argument loop ends as the fold of `ArgStep` |
| GenerateScript.Generator.VisitImport | src/generate.ts:101-110 | one `wasmImports` property updates the tables as `ImportStep` |
| GenerateScript.Generator.VisitImports | src/generate.ts:98-113 | the `wasmImports` loop ends as the fold of `ImportStep` |
| GenerateScript.Generator.VisitImportKeys | src/generate.ts:115-123 | the `imports` loop ends as the fold of `ImportKeyStep` |
| GenerateScript.Generator.VisitDeclarations | src/generate.ts:92-133 | the declarator loop ends as the fold of `DeclStep` |
| GenerateScript.Generator.VisitSeek | src/generate.ts:140-146 | the `_fd_seek` loop ends as the fold of `SeekStep` |
| GenerateScript.Generator.VisitInitRuntime | src/generate.ts:148-164 | the `initRuntime` loop ends as the fold of `InitStep`, which never throws |
| GenerateScript.Generator.VisitTop | src/generate.ts:64-167 | one top-level statement updates the tables as `TopStep` |
| GenerateScript.Generator.VisitProgram | src/generate.ts:64-168 | the top-level loop ends as the fold of `TopStep` over the program |
| GenerateScript.Generator.Patch | src/generate.ts:170-176 | the deletes and overrides act as `Generate.Patch` |
| GenerateScript.Generator.Run | src/generate.ts:26-176 | running the script gives the tables `Generated(program)`, or throws exactly when it does |

## Left out

- The cryptographic primitives (keypair creation, x-only keys, BIP-340 signing and verification, context randomization, SHA-256) are compiled C inside the module. They are the abstract functions of `Wasm.Primitives`; only their frames and result codes are modelled.
- Wasm instantiation and loading (`src/api/nostr.ts:59-86`, `src/api/secp256k1.ts:61-88`) are asynchronous host I/O. The model starts from a bound heap and the allocator's break after `init()`.
- `crypto.getRandomValues`, and `gen_secret_key`/`generateSecretKey`, which only call it. The random bytes are inputs of the methods (`seed`, `random`). The `crypto.getRandomValues` availability test in `src/api/nostr.ts:201` is taken as true.
- Console output. The logged line is kept as data in the shim's `console` log, and nothing is printed.
- `TextDecoder`/`buffer_to_text`: the shim treats text as bytes. It concatenates the raw bytes of the iovecs, while the source decodes each chunk on its own. So the model does not capture replacement characters for malformed UTF-8 or for sequences split across iovecs.
- `JSON.stringify` is modelled for what an event holds: strings, and arrays of arrays of strings. Lone surrogates cannot occur because Dafny's `char` is a Unicode scalar value.
- `created_at` and `kind` are modelled as unbounded integers, printed in integer form (true of JavaScript below 10^21).
- The V8 RangeError text for a `set` past the end of the heap is modelled as the fixed message 'offset is out of bounds'.
- Concurrency: the source is single-threaded.
- `free` and `sbrk` are never called by the facades and are not modelled. `malloc` is a bump allocator that never reuses memory. The wasm-env resize message is assumed to print `brk + n`, the heap size the failed request would need; Emscripten passes `resize` the total heap size it asks for, which a bump allocator does not determine.
- `RuntimeShim.Shim.Write`: requires every iovec record to lie inside the word view. A record read past the end of the `Uint32Array` gives `undefined` in the source, which the model does not follow.
- `RuntimeShim.Shim.Write`, `RuntimeShim.StoreCount`, `RuntimeShim.RecordWords`: word indices are the byte address divided by 4, so they agree with the source's `>> 2` only for addresses below 2^31 (`RuntimeShim.ShiftIndex`). For an `ip_iov` record or `ip_written` at or above 2^31, the source reads `undefined` or drops the count store, and the model does not follow that. Heaps of 2 GiB or more are not modelled.
- `Wasm.Trapped`: only traps routed through the shim's `abort` are modelled, as libsecp256k1's illegal-argument and error callbacks do: a diagnostic on fd 2, then `abort`. A `WebAssembly.RuntimeError` (`unreachable`, an out-of-bounds access, a stack overflow) is not modelled. Its message never passes through `abort`. The count that the diagnostic's `fd_write` stores at `ip_written`, and the module's own writes to its stack and static data, are not modelled either: a trap leaves the modelled heap unchanged. `Secp256k1.AbortIsNotOwn`, `Secp256k1.PublicKeyNeverReportsInvalidKey`, `NostrProperties.ShimIsNotOwn` and `NostrProperties.GetPublicKeyNeverReportsFailure` rest on this assumption.
- `Hex.FromHex`: the argument is taken to hold only characters of the Basic Multilingual Plane. The source's `hex.length` and `hex.slice` count UTF-16 code units, while a Dafny `string` counts scalar values. So an astral character such as U+1F600 gives `[0]` in the source and `[]` in the model.
- `Secp256k1.WasmSecp256k1.Sign`, `Secp256k1.WasmSecp256k1.Verify`, `Secp256k1.WasmSecp256k1.WithKeypair`, `Secp256k1.WasmSecp256k1.GetPublicKey`, `Secp256k1.WasmSecp256k1.PublicKey`, `Secp256k1.WasmSecp256k1.Signed`, `Secp256k1.WasmSecp256k1.PlaceSignInputs`, `Secp256k1.WasmSecp256k1.PlaceVerifyInputs`, `Nostr.NostrWasm.GetPublicKey`: the key, hash and entropy are 32-byte values (and the signature in `Verify` is 64 bytes), as the interface documents. The source would accept other lengths, with `set` throwing or leaving stale bytes.
- `NostrProperties.VerifyEventValue`: states the outcome for a signature that decodes to 64 bytes and a key that decodes to 32. Other lengths are modelled by `Nostr.VerifyEventStep`, but no lemma describes them.
- `Nostr.NostrWasm.FinalizeEvent`: the key is a 32-byte value.
- `src/generate.ts`: the file reads, `acorn.parse`, `process.argv` and the printed template are left out. The AST is a small datatype with only the node shapes the walk distinguishes. The lines of the two interfaces and of the two maps are modelled, but not the surrounding text. `H_TYPES` is modelled by its key set only, because its signature texts are never printed. Keys inherited from `Object.prototype` are not modelled. A top-level expression statement other than a call is taken to throw a TypeError, as iterating the missing `arguments` does. A `NewExpression` also has `arguments`, which the source iterates, and that case is not modelled. `oderac` is taken to drop `undefined` results.
- The base64 and gzip decoding in the rest of `src/gzipped.ts`, and `src/main.ts`: host APIs.
- `rollup.config.js`, `demo/script.ts`, `demo/vite.config.ts` and `src/types.ts`: build configuration, UI code and type declarations.

## Findings

| source | as written | input that shows it | evidently intended | confidence | as-written member | corrected member |
|---|---|---|---|---|---|---|
| src/api/nostr.ts:200-203 | random bytes go into the entropy region only when `ent` is absent; a passed `ent` is never copied, so the signature uses whatever the region held before | `finalizeEvent(e, sk, ent)` with any 32-byte `ent`: the result is the same for every `ent` | the passed entropy is copied into the entropy region before signing | not executed | NostrProperties.FinalizeEventIgnoresEntropy | NostrProperties.FinalizeEventIntendedValue |
| src/api/nostr.ts:231-233 | the loop compares only the first `fromHex(event.id).length` bytes, so a prefix of the digest, including the empty id, passes the check | an otherwise valid event with `id: ""` verifies | the whole 32-byte id must equal the computed digest | not executed | NostrProperties.VerifyEventEmptyId | NostrProperties.VerifyEventIntendedRejectsEmptyId |

For the first row, `NostrProperties.FinalizeEventStaleEntropy` also shows the
as-written behaviour: the signature is made with the region's stale contents.
The corrected definition is `Nostr.FinalizeEventIntendedStep`. For the second
row, `NostrProperties.IdAcceptedIsPrefix` and `NostrProperties.VerifyEventIdCheck`
show that only a prefix is checked. The corrected definition is
`Nostr.VerifyEventIntendedStep`, and `NostrProperties.VerifyEventIntendedValue`
states its full outcome.
