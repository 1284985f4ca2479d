# Boot core of the Keystone-derived security monitor, in Dafny

This project models the boot-time core of the security monitor in
`src/sm.c`, and proves properties of that model. The core has four parts.

- **The free list over non-volatile memory** (`nvm_free_list_init`), in
  `freelist.dfy`. The global descriptor `free_list_nvm` is a class with the
  fields `head`, `tail` and `count`. Physical memory is a class holding a
  map from word address to 64-bit word. The builder is a `while` loop over
  `now` that writes the links into the blocks themselves. Its contract ties
  the new descriptor and memory to the old ones through `Appended`, which
  says:
  - `count` grew by the number of strides;
  - head and tail are where they should be;
  - the visited blocks are chained in stride order and the last holds 0;
  - a non-empty list's old tail links to the region base, unless the old
    tail is one of the strides, which later iterations rewrite;
  - no other word changed.

  Lemmas then show what a build from the empty descriptor leaves: walking
  from `head` visits, once each and in ascending order, every address of the
  region at a multiple of `NVM_BLOCK_SIZE` from `NVM_BASE`, and then
  reaches 0. These addresses are block-aligned in the usual sense only when
  `NVM_BASE` is itself a multiple of the block size, which the builder does
  not check (`FreeList.StridesBlockAligned`).
- **The region-registration wrappers** (`smm_init`, `nvm_init`,
  `osm_init`), in `regions.dfy`. The PMP primitive `pmp_region_init_atomic`
  is a function parameter about which nothing is assumed.
- **The identity material** (`sm_copy_key`, `sm_derive_sealing_key`), in
  `keys.dfy`. The five global key arrays are Dafny arrays, filled element by
  element. The key-derivation function `kdf` is an uninterpreted function
  parameter. The model states exactly which call the derivation makes to it.
- **The boot sequence** (`sm_init`), in `boot.dfy`, run sequentially on one
  hart. `Monitor` holds the globals:
  - `sm_init_done`;
  - the three region ids;
  - the key store;
  - the free-list descriptor;
  - the memory;
  - a log of the calls made to collaborators outside the model.

  `Monitor.SmInit` is proved against the pure specification `SmInitSpec`.
  Its ensures give the new globals, the calls made and the outcome: `Ready`,
  `Halted` (in `sbi_hart_hang`) or `Waiting` (spinning at the barrier).
  Lemmas about `SmInitSpec` state the ordering the source relies on:
  - a failure on the cold-boot path hangs the hart before the key copy,
    before `sm_init_done` is published and before any permission is set;
  - the flag is published only after every cold-boot step succeeded;
  - permissions are applied only past the barrier: NO_PERM for the monitor
    region, then NO_PERM for the NVM region, then ALL_PERM for the OS region.

Some members carry no contract of their own; the rows below state their
properties through the lemmas that use them:
- `Boot.SmInitSpec` and its parts `ColdBoot`, `RegisterAll` and `AllHarts`
  are the specification of `sm_init`. `Boot.Monitor.SmInit` is proved
  against them, and the `Boot` lemmas give their properties.
- `Keys.KeyStore.DeriveSealingKey` is `sm_derive_sealing_key`. A single
  `kdf` call on `Keys.SealingKdfCall` computes it; `Keys.SealingKdfCallShape`,
  `Keys.SealingKeyDeterministic` and `Keys.DerivesFromRomSecret` state what
  that call is.

Two modelling choices frame all four parts:

- The layout constants and the key sizes come from headers that are not part
  of this model. The layout constants (`SMM_BASE`, `NVM_BASE`, `NVM_SIZE`,
  `NVM_BLOCK_SIZE`, ...) are parameters, gathered in `Platform.Layout`. The
  key sizes are fixed at the values the monitor is built with: a 64-byte
  hash, signature and private key, 32-byte public keys and a 128-byte
  sealing key.
- `FREELIST_EMPTY` is taken to test `count == 0`. That test holds for the
  zero-initialised descriptor and fails once a block has been added.

Every hart runs `nvm_free_list_init` on the same descriptor.
`FreeList.RebuildDoublesCount` shows what a second sequential build does:
- `count` doubles;
- head and tail stay where they were;
- following the links from the head still reaches 0 after the first half of
  the blocks, so the descriptor over-counts its list.

## Model

| member | source | states |
|---|---|---|
| Platform.WordAdd | src/sm.c:72 | `now += NVM_BLOCK_SIZE` on a `uintptr_t`: the exact sum below 2^64, the sum minus 2^64 at or above it |
| Platform.StrideBelowEnd | src/sm.c:72 | the loop guard `now < end` holds at the k-th stride exactly when k is below ceil(NVM_SIZE / NVM_BLOCK_SIZE), so the loop runs that many times |
| Platform.StrideAscending | src/sm.c:72 | later iterations visit strictly higher addresses |
| Platform.NoWrap | src/sm.c:72 | under the layout's validity condition the address after the last iteration still fits in 64 bits, so `now` never wraps |
| FreeList.FreeList.constructor | src/sm.c:21 | the static descriptor starts as head 0, tail 0, count 0, and `FREELIST_EMPTY` holds of it |
| FreeList.NvmFreeListInit | src/sm.c:65-91 | returns 1; from any starting descriptor and memory the new state is `Appended` over all strides: count grows by the number of strides, the tail is the last stride, the head is the base if the list was empty and is kept otherwise, the blocks are chained and the last holds 0, the old tail links to the base unless it is one of the strides (later iterations rewrite those), and no other word changes |
| FreeList.AppendStep | src/sm.c:73-85 | one loop iteration (link from the old tail or set the head, zero the new block, move the tail, increment count) extends `Appended` from k to k + 1 blocks |
| FreeList.WalkAlongStrides | src/sm.c:75-83 | in memory where the first k blocks are chained, following links from block j visits blocks j .. k-1 in order and then reaches 0 |
| FreeList.BuildFromEmpty | src/sm.c:66-85 | built from the empty descriptor: count equals the number of strides, head is NVM_BASE, tail is NVM_BASE + (count-1)·NVM_BLOCK_SIZE with first word 0, and the walk from head is exactly the stride addresses in order |
| FreeList.StridesCoverRegion | src/sm.c:72 | the stride addresses are strictly ascending and are exactly the addresses of [NVM_BASE, NVM_BASE + NVM_SIZE) at a multiple of NVM_BLOCK_SIZE from NVM_BASE |
| FreeList.StridesBlockAligned | src/sm.c:72 | when NVM_BASE is a multiple of NVM_BLOCK_SIZE, the stride addresses are exactly the addresses of the region that are multiples of NVM_BLOCK_SIZE |
| FreeList.StrideInRegion | src/sm.c:72 | every address the loop visits lies in the region, at a multiple of NVM_BLOCK_SIZE from NVM_BASE |
| FreeList.AlignedIsStride | src/sm.c:72 | every address of the region at a multiple of NVM_BLOCK_SIZE from NVM_BASE is visited by some iteration |
| FreeList.WritesStayInRegion | src/sm.c:72-85 | the only words added or changed are first words of addresses of the region at a multiple of NVM_BLOCK_SIZE from NVM_BASE, and the old tail of a non-empty list; no word disappears |
| FreeList.RebuildDoublesCount | src/sm.c:72-85 | a second build over the list the first built doubles count and keeps head and tail, yet the walk from head reaches 0 after the first count/2 blocks: the old tail holds 0, its link to the base written by the first iteration being overwritten by the last |
| FreeList.ExampleBuild | src/sm.c:65-91 | a 0x4000-byte region at 0x80000000 with 0x1000-byte blocks, built from the zero descriptor, gives count 4, head 0x80000000 and tail 0x80003000 |
| Regions.RegionIdOf | src/sm.c:47-50 | the wrappers' common tail: -1 on a non-zero return code, the region id otherwise |
| Regions.SmmInit | src/sm.c:42-51 | `smm_init` registers SMM_BASE/SMM_SIZE at top priority as a non-default region and returns -1 on failure, the region id on success |
| Regions.NvmInit | src/sm.c:53-63 | `nvm_init` registers NVM_BASE/NVM_SIZE at the next priority and returns -1 on failure, the region id on success |
| Regions.OsmInit | src/sm.c:95-103 | `osm_init` registers the default region from 0 with size -1UL at bottom priority and returns -1 on failure, the region id on success |
| Regions.FailsExactlyWhenPmpFails | src/sm.c:47-50 | when the primitive hands out non-negative ids, a wrapper's result is negative (and then -1) exactly when the primitive fails |
| Regions.RegionRequestsOrdered | src/sm.c:42-103 | top over next over bottom priority; only the OS region is the default one and it spans the whole address space; the other two use the layout's base and size |
| Keys.Zeroed | src/sm.c:30-34 | the zero-initialised key arrays have their declared sizes and hold only zeroes |
| Keys.CopyBytes | src/sm.c:132-136 | one `sbi_memcpy` over a whole fixed-size buffer: the destination equals the source element for element |
| Keys.KeyStore.constructor | src/sm.c:30-34 | five distinct arrays of the declared sizes, all zero |
| Keys.KeyStore.CopyKey | src/sm.c:130-137 | afterwards each of sm_hash, sm_signature, sm_public_key, sm_private_key (from the ROM's secret key) and dev_public_key equals its boot-ROM source |
| Keys.SealingInfo | src/sm.c:116-119 | the info buffer has MDSIZE + key_ident_size bytes: the measurement first, the key identifier after it |
| Keys.SealingKdfCallShape | src/sm.c:112-128 | `kdf` receives an empty salt, the private key as secret, the info string byte for byte, and SEALING_KEY_SIZE as output length |
| Keys.SealingKdfCallInjective | src/sm.c:116-127 | two derivations ask `kdf` the same question only with the same private key, measurement and identifier |
| Keys.SealingKeyDeterministic | src/sm.c:125-127 | for a deterministic `kdf`, two stores with the same private key derive the same key from the same identifier and measurement |
| Keys.DerivesFromRomSecret | src/sm.c:125-127 | after the key copy, derivation uses the boot ROM's secret key as the `kdf` secret |
| Boot.Monitor.constructor | src/sm.c:18-34 | the boot globals start at zero, the key arrays at zero, the descriptor empty, and the call log empty |
| Boot.Monitor.SmInit | src/sm.c:162-235 | `sm_init(cold_boot)`: new globals, calls made and outcome are those of `SmInitSpec`; the keys become the ROM's exactly when the key copy runs, otherwise they stay; the free list is `Appended` exactly when its build runs, and otherwise the descriptor and memory stay |
| Boot.Monitor.ColdHart | src/sm.c:162-228 | `sm_init(true)`: the same contract on the cold-boot hart, the cold-boot block followed, unless it hung, by the code every hart runs |
| Boot.Monitor.ColdBootBlock | src/sm.c:165-205 | the cold-boot block: globals, calls and outcome as in `ColdBoot`; keys become the ROM's exactly when the key copy is among its calls |
| Boot.Monitor.RegisterRegions | src/sm.c:169-191 | extension registration, then the three registrations, each id stored as it comes and each failure hanging at once, as in `RegisterAll` |
| Boot.Monitor.BarrierAndAfter | src/sm.c:207-228 | waits if the flag is unset; otherwise `pmp_init`, the three permissions, the free-list build and the per-hart hook, as in `AllHarts`; the list is `Appended` exactly past the barrier; keys unchanged |
| Boot.EffectsOfEvents | src/sm.c:165-219 | the key copy is among the calls exactly when the cold-boot block finishes; the free-list build is among them exactly when the hart gets past the barrier |
| Boot.CallsOfEachPart | src/sm.c:165-219 | the key copy happens only in the cold-boot block, the free-list build only past the barrier, and the latter exactly when the flag is set |
| Boot.ColdBootSuccessRun | src/sm.c:165-205 | when every step succeeds, the cold-boot block makes its eight calls in order, records the three region ids and sets the flag |
| Boot.CallsBeforeFailure | src/sm.c:172-196 | a failing cold boot makes between 2 and 5 of the cold-boot calls before hanging |
| Boot.ColdBootFailureRun | src/sm.c:172-196 | a failing cold boot makes the cold-boot calls in order up to the failing one, then hangs; each registration that ran has stored its wrapper's result (negative for the failing one: -1 on a non-zero return code, otherwise the negative id the primitive left), the other ids and the flag are left as they were |
| Boot.ColdBootFailureIsFailStop | src/sm.c:172-205 | on failure of smm_init, nvm_init, osm_init or the one-time hook: ends in the hang, with no key copy, no metadata init, no publication, no pmp_init, no permission change, no free-list build, and the flag unchanged |
| Boot.PublishedOnlyAfterEveryStep | src/sm.c:165-203 | `sm_init_done` is published exactly when the cold-boot hart's steps all succeed, after the eight cold-boot calls in their order, with the three region ids recorded |
| Boot.PermissionsOnlyAfterBarrier | src/sm.c:207-228 | `pmp_init` is reached exactly when the flag is set (for the cold-boot hart: after success); then NO_PERM to the SM region, NO_PERM to the NVM region and ALL_PERM to the OS region in that order, then the free-list build and the per-hart hook |
| Boot.OtherHartWaits | src/sm.c:207-211 | a hart that is not the cold-boot hart and finds the flag unset changes nothing, makes no call, and waits |
| Boot.ColdFailureStallsOtherHarts | src/sm.c:172-211 | after a cold-boot failure every other hart stays at the barrier, whatever its environment |
| Boot.OtherHartsFollowColdBoot | src/sm.c:203-217 | after a successful cold boot another hart sets the same three permissions on the same region ids as the cold-boot hart and leaves the boot globals unchanged |
| Boot.BootStateWrittenOnce | src/sm.c:165-217 | the flag never reverts, and a hart that is not the cold-boot hart never changes the boot globals |

## Left out

- FreeList.NvmFreeListInit: requires `NVM_BASE + NVM_SIZE + NVM_BLOCK_SIZE <= 2^64`. This is a little more than the exact no-wrap condition `Platform.NoWrap` derives from it. Layouts whose last stride ends within one block of 2^64 are excluded, even though the source's loop still terminates on some of them.
- FreeList.NvmFreeListInit: `count` is an unbounded natural. The width of the header's `count` field, and any wrap-around of it, are not modelled.
- FreeList.NvmFreeListInit: memory is a map from address to 64-bit word. Writes at addresses closer than 8 bytes (a block size below 8) would overlap in the machine but are separate cells here.
- Regions.FailsExactlyWhenPmpFails: assumes the primitive yields a non-negative region id when it succeeds. Without that, a successful call that left a negative id would also read as failure in `sm_init`.
- The PMP hardware (`pmp_region_init_atomic`, `pmp_init`, `pmp_set_keystone`) is foreign code. The primitive is a function parameter, and the other calls are logged with their arguments; the source ignores their results. The overlap resolution between priorities is not modelled.
- `osm_pmp_set` is a one-line forward to `pmp_set_keystone` for callers outside the boot path; it is not modelled.
- `sm_sign` forwards to the signing primitive, which is cryptography outside this model; it is not modelled. `kdf` is likewise an uninterpreted function parameter.
- The spin-wait barrier on `sm_init_done` and the `mb()` fences express cross-hart memory ordering. A hart that reaches the barrier with the flag unset ends in `Waiting`.
- Concurrent execution by several harts is not modelled. In particular, unsynchronised runs of `nvm_free_list_init` on the shared descriptor are left out; only sequential runs are.
- `sbi_printf` and `csr_read(mhartid)` only produce console output: left out.
- `sbi_ecall_register_extension` and `enclave_init_metadata` are external; they are logged only.
- `platform_init_global_once` and `platform_init_global` are reduced to whether they returned success; their effects belong to the platform.
- The boot ROM's arrays are an input of the environment.
- The commented-out `sm_print_cert` is dead code.
- The layout constants come from headers that are not part of this model, and are parameters. The key sizes also come from such headers, and are fixed at the monitor's build values.
