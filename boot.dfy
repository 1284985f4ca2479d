/**
 * The monitor's boot sequence (`sm_init`), taken as a sequential state
 * machine on one hart.
 *
 * The cold-boot hart registers the three memory regions, runs the one-time
 * platform hook, copies the identity material, initialises the enclave
 * metadata and publishes `sm_init_done`; any failure hangs the hart. Every
 * hart then waits for the flag, applies the region permissions, builds the
 * free list over the non-volatile region and runs the per-hart platform hook.
 *
 * Calls into collaborators outside the model (the SBI, the PMP hardware, the
 * platform hooks, the metadata subsystem) become entries of a call log;
 * their results come from an `Environment`.
 */
module Boot {
  import opened Platform
  import opened FreeList
  import opened Regions
  import opened Keys

  /** PMP_NO_PERM and PMP_ALL_PERM. */
  datatype Perm = NoPerm | AllPerm

  /** One call out of the boot path, in the order the hart makes it. */
  datatype Event =
    | RegisterExtension                   // sbi_ecall_register_extension
    | RegisterRegion(req: RegionRequest)  // pmp_region_init_atomic
    | PlatformInitGlobalOnce              // platform_init_global_once
    | CopyKey                             // sm_copy_key
    | InitMetadata                        // enclave_init_metadata
    | Publish                             // sm_init_done = 1
    | PmpInit                             // pmp_init
    | SetPerm(region: int, perm: Perm)    // pmp_set_keystone
    | BuildNvmFreeList                    // nvm_free_list_init
    | PlatformInitGlobal                  // platform_init_global
    | Hang                                // sbi_hart_hang

  /**
   * What the collaborators answer: the PMP primitive, whether each platform
   * hook returned SBI_ERR_SM_ENCLAVE_SUCCESS, and the boot ROM's identity
   * material (`sanctum_sm_hash`, ..., with `sanctum_sm_secret_key` as the
   * private key).
   */
  datatype Environment = Environment(pmp: Pmp, globalOnceOk: bool, globalOk: bool, rom: KeyMaterial)

  /**
   * How a call of `sm_init` ends: it returns, it hangs in `sbi_hart_hang`,
   * or it never gets past the barrier because `sm_init_done` is not set.
   */
  datatype Outcome = Ready | Halted | Waiting

  /** The globals `sm_init_done`, `sm_region_id`, `nvm_region_id` and `os_region_id`. */
  datatype BootState = BootState(initDone: bool, smId: int, nvmId: int, osId: int)

  /** The state a call leaves, the calls it made, and how it ended. */
  datatype Run = Run(state: BootState, events: seq<Event>, outcome: Outcome)

  /** The calls of a successful cold-boot block. */
  function ColdBootEvents(l: Layout): seq<Event>
  {
    [RegisterExtension, RegisterRegion(SmmRequest(l)), RegisterRegion(NvmRequest(l)),
     RegisterRegion(OsmRequest()), PlatformInitGlobalOnce, CopyKey, InitMetadata, Publish]
  }

  /** The calls every hart makes once past the barrier, before the per-hart hook's verdict. */
  function BarrierEvents(s: BootState): seq<Event>
  {
    [PmpInit, SetPerm(s.smId, NoPerm), SetPerm(s.nvmId, NoPerm), SetPerm(s.osId, AllPerm),
     BuildNvmFreeList, PlatformInitGlobal]
  }

  /** Every step of the cold-boot block succeeds. */
  predicate ColdBootSucceeds(l: Layout, env: Environment)
  {
    && SmmInit(l, env.pmp) >= 0
    && NvmInit(l, env.pmp) >= 0
    && OsmInit(env.pmp) >= 0
    && env.globalOnceOk
  }

  /**
   * The registrations the cold-boot hart makes, monitor region first, then
   * the non-volatile region, then the default region; each failure hangs the
   * hart at once. `Ready` means all three succeeded.
   */
  function RegisterAll(l: Layout, env: Environment, s: BootState): Run
  {
    var sm := SmmInit(l, env.pmp);
    var ev1 := [RegisterExtension, RegisterRegion(SmmRequest(l))];
    if sm < 0 then Run(s.(smId := sm), ev1 + [Hang], Halted)
    else
      var nvm := NvmInit(l, env.pmp);
      var ev2 := ev1 + [RegisterRegion(NvmRequest(l))];
      if nvm < 0 then Run(s.(smId := sm, nvmId := nvm), ev2 + [Hang], Halted)
      else
        var os := OsmInit(env.pmp);
        var ev3 := ev2 + [RegisterRegion(OsmRequest())];
        var s3 := s.(smId := sm, nvmId := nvm, osId := os);
        if os < 0 then Run(s3, ev3 + [Hang], Halted)
        else Run(s3, ev3, Ready)
  }

  /** The block only the cold-boot hart runs; `Ready` means it went on to the barrier. */
  function ColdBoot(l: Layout, env: Environment, s: BootState): Run
  {
    var r := RegisterAll(l, env, s);
    if r.outcome == Halted then r
    else if !env.globalOnceOk then Run(r.state, r.events + [PlatformInitGlobalOnce, Hang], Halted)
    else Run(r.state.(initDone := true), r.events + [PlatformInitGlobalOnce, CopyKey, InitMetadata, Publish], Ready)
  }

  /** The barrier and everything after it, run by every hart. */
  function AllHarts(env: Environment, s: BootState): Run
  {
    if !s.initDone then Run(s, [], Waiting)
    else if env.globalOk then Run(s, BarrierEvents(s), Ready)
    else Run(s, BarrierEvents(s) + [Hang], Halted)
  }

  /** One call of `sm_init(coldBoot)` from boot state `s`. */
  function SmInitSpec(coldBoot: bool, l: Layout, env: Environment, s: BootState): Run
  {
    if !coldBoot then AllHarts(env, s)
    else
      var c := ColdBoot(l, env, s);
      if c.outcome == Halted then c
      else
        var a := AllHarts(env, c.state);
        Run(a.state, c.events + a.events, a.outcome)
  }

  /** Whether a call of `sm_init` copies the boot ROM's identity material. */
  predicate KeysCopied(coldBoot: bool, l: Layout, env: Environment, s: BootState)
  {
    coldBoot && ColdBoot(l, env, s).outcome == Ready
  }

  /** Whether a call of `sm_init` gets past the barrier and builds the free list. */
  predicate ListBuilt(coldBoot: bool, l: Layout, env: Environment, s: BootState)
  {
    if coldBoot then ColdBoot(l, env, s).outcome == Ready else s.initDone
  }

  /** The two flags say which calls the run makes. */
  lemma EffectsOfEvents(coldBoot: bool, l: Layout, env: Environment, s: BootState)
    ensures CopyKey in SmInitSpec(coldBoot, l, env, s).events <==> KeysCopied(coldBoot, l, env, s)
    ensures BuildNvmFreeList in SmInitSpec(coldBoot, l, env, s).events <==> ListBuilt(coldBoot, l, env, s)
  {
  }

  /** The free list and memory after a call: appended to by one build when `built`, untouched otherwise. */
  ghost predicate FreeListEffect(built: bool, n: NvmLayout, d0: Descriptor, w0: Words, d: Descriptor, w: Words)
    requires n.Valid()
  {
    if built then Appended(n, n.StrideCount(), d0, w0, d, w) else d == d0 && w == w0
  }

  /** The monitor's global state, passed to `SmInit` as one context object. */
  class Monitor {
    const layout: Layout
    const keys: KeyStore
    const freeList: FreeList
    const memory: Memory
    var initDone: bool
    var smRegionId: int
    var nvmRegionId: int
    var osRegionId: int
    /** Every call made out of the boot path so far, oldest first. */
    var calls: seq<Event>

    ghost predicate Valid()
    {
      layout.Valid() && keys.Valid()
    }

    function State(): BootState
      reads this
    {
      BootState(initDone, smRegionId, nvmRegionId, osRegionId)
    }

    /** The globals as the monitor image starts: all zero. */
    constructor (layout: Layout, memory: Memory)
      requires layout.Valid()
      ensures Valid()
      ensures this.layout == layout && this.memory == memory
      ensures State() == BootState(false, 0, 0, 0) && calls == []
      ensures keys.Contents() == Zeroed() && freeList.Snapshot() == Descriptor(0, 0, 0)
      ensures fresh(keys.Repr()) && fresh(freeList)
    {
      this.layout := layout;
      this.memory := memory;
      keys := new KeyStore();
      freeList := new FreeList();
      initDone := false;
      smRegionId, nvmRegionId, osRegionId := 0, 0, 0;
      calls := [];
    }

    /**
     * `sm_init`: the new globals, the calls made and the outcome are those of
     * `SmInitSpec`; the identity material is the boot ROM's exactly when the
     * key copy ran, and the free list was appended to exactly when its build
     * ran.
     */
    method SmInit(coldBoot: bool, env: Environment) returns (outcome: Outcome)
      requires Valid() && env.rom.WellSized()
      modifies this, keys.Repr(), freeList, memory
      ensures Valid()
      ensures var spec := SmInitSpec(coldBoot, layout, env, old(State()));
        && State() == spec.state
        && calls == old(calls) + spec.events
        && outcome == spec.outcome
        && keys.Contents() == (if KeysCopied(coldBoot, layout, env, old(State())) then env.rom else old(keys.Contents()))
        && FreeListEffect(ListBuilt(coldBoot, layout, env, old(State())), layout.nvm,
                          old(freeList.Snapshot()), old(memory.words), freeList.Snapshot(), memory.words)
    {
      if coldBoot {
        outcome := ColdHart(env);
      } else {
        outcome := BarrierAndAfter(env);
      }
    }

    /** `sm_init` on the cold-boot hart: the cold-boot block, then, unless it hung, the barrier and after. */
    method ColdHart(env: Environment) returns (outcome: Outcome)
      requires Valid() && env.rom.WellSized()
      modifies this, keys.Repr(), freeList, memory
      ensures Valid()
      ensures var spec := SmInitSpec(true, layout, env, old(State()));
        && State() == spec.state
        && calls == old(calls) + spec.events
        && outcome == spec.outcome
        && keys.Contents() == (if KeysCopied(true, layout, env, old(State())) then env.rom else old(keys.Contents()))
        && FreeListEffect(ListBuilt(true, layout, env, old(State())), layout.nvm,
                          old(freeList.Snapshot()), old(memory.words), freeList.Snapshot(), memory.words)
    {
      ghost var s0, c0 := State(), calls;
      outcome := ColdBootBlock(env);
      if outcome == Halted {
        return;
      }
      ghost var before := ColdBoot(layout, env, s0).events;
      ghost var s1, k1 := State(), keys.Contents();
      ghost var d1, w1 := freeList.Snapshot(), memory.words;
      assert d1 == old(freeList.Snapshot()) && w1 == old(memory.words);
      assert KeysCopied(true, layout, env, s0) && ListBuilt(true, layout, env, s0) && s1.initDone;
      ghost var a := AllHarts(env, s1);
      assert SmInitSpec(true, layout, env, s0) == Run(a.state, before + a.events, a.outcome);
      outcome := BarrierAndAfter(env);
      AppendAssociative(c0, before, a.events);
      assert keys.Contents() == k1;
    }

    /** The cold-boot block of `sm_init`, up to and including publishing `sm_init_done`. */
    method ColdBootBlock(env: Environment) returns (outcome: Outcome)
      requires Valid() && env.rom.WellSized()
      modifies this, keys.Repr()
      ensures Valid()
      ensures State() == ColdBoot(layout, env, old(State())).state
      ensures calls == old(calls) + ColdBoot(layout, env, old(State())).events
      ensures outcome == ColdBoot(layout, env, old(State())).outcome
      ensures CopyKey in ColdBoot(layout, env, old(State())).events ==> keys.Contents() == env.rom
      ensures CopyKey !in ColdBoot(layout, env, old(State())).events ==> keys.Contents() == old(keys.Contents())
    {
      ghost var r := RegisterAll(layout, env, State());
      outcome := RegisterRegions(env);
      if outcome == Halted {
        return;
      }
      if !env.globalOnceOk {
        calls := calls + [PlatformInitGlobalOnce, Hang];
        return Halted;
      }
      keys.CopyKey(env.rom);
      initDone := true;
      calls := calls + [PlatformInitGlobalOnce, CopyKey, InitMetadata, Publish];
      return Ready;
    }

    /** The SBI extension and the three region registrations, storing each region id as it comes. */
    method RegisterRegions(env: Environment) returns (outcome: Outcome)
      modifies this
      ensures State() == RegisterAll(layout, env, old(State())).state
      ensures calls == old(calls) + RegisterAll(layout, env, old(State())).events
      ensures outcome == RegisterAll(layout, env, old(State())).outcome
    {
      var log := [RegisterExtension, RegisterRegion(SmmRequest(layout))];
      smRegionId := SmmInit(layout, env.pmp);
      if smRegionId < 0 {
        calls := calls + (log + [Hang]);
        return Halted;
      }
      log := log + [RegisterRegion(NvmRequest(layout))];
      nvmRegionId := NvmInit(layout, env.pmp);
      if nvmRegionId < 0 {
        calls := calls + (log + [Hang]);
        return Halted;
      }
      log := log + [RegisterRegion(OsmRequest())];
      osRegionId := OsmInit(env.pmp);
      if osRegionId < 0 {
        calls := calls + (log + [Hang]);
        return Halted;
      }
      calls := calls + log;
      return Ready;
    }

    /** The part of `sm_init` every hart runs: the barrier, the permissions, the free list, the per-hart hook. */
    method BarrierAndAfter(env: Environment) returns (outcome: Outcome)
      requires Valid()
      modifies this`calls, freeList, memory
      ensures keys.Contents() == old(keys.Contents())
      ensures calls == old(calls) + AllHarts(env, old(State())).events
      ensures outcome == AllHarts(env, old(State())).outcome
      ensures FreeListEffect(initDone, layout.nvm, old(freeList.Snapshot()), old(memory.words),
                             freeList.Snapshot(), memory.words)
    {
      // The source spins here until `sm_init_done` is set; a hart that finds
      // it unset never gets further.
      if !initDone {
        return Waiting;
      }
      var log := [PmpInit, SetPerm(smRegionId, NoPerm), SetPerm(nvmRegionId, NoPerm), SetPerm(osRegionId, AllPerm),
                  BuildNvmFreeList];
      var res := NvmFreeListInit(layout.nvm, freeList, memory);
      log := log + [PlatformInitGlobal];
      if !env.globalOk {
        calls := calls + (log + [Hang]);
        return Halted;
      }
      calls := calls + log;
      return Ready;
    }
  }

  /** Concatenation regroups; a proof hint for splicing call logs, not a property of the monitor. */
  lemma AppendAssociative(a: seq<Event>, b: seq<Event>, c: seq<Event>)
    ensures (a + b) + c == a + (b + c)
  {
  }

  /** The key copy happens only in the cold-boot block, the free-list build only past the barrier. */
  lemma CallsOfEachPart(l: Layout, env: Environment, s: BootState, s': BootState)
    ensures BuildNvmFreeList !in ColdBoot(l, env, s).events
    ensures CopyKey !in AllHarts(env, s').events
    ensures BuildNvmFreeList in AllHarts(env, s').events <==> s'.initDone
  {
  }

  /**
   * When every step succeeds, the cold-boot block makes its eight calls in
   * order, records the three region ids and publishes `sm_init_done`.
   */
  lemma ColdBootSuccessRun(l: Layout, env: Environment, s: BootState)
    requires ColdBootSucceeds(l, env)
    ensures ColdBoot(l, env, s)
      == Run(BootState(true, SmmInit(l, env.pmp), NvmInit(l, env.pmp), OsmInit(env.pmp)), ColdBootEvents(l), Ready)
  {
  }

  /**
   * How many cold-boot calls a failing cold boot makes before it hangs:
   * the extension and the first registration, then one more for each step
   * that succeeded, the one-time hook being the last.
   */
  function CallsBeforeFailure(l: Layout, env: Environment): (n: nat)
    requires !ColdBootSucceeds(l, env)
    ensures 2 <= n <= 5
  {
    if SmmInit(l, env.pmp) < 0 then 2
    else if NvmInit(l, env.pmp) < 0 then 3
    else if OsmInit(env.pmp) < 0 then 4
    else 5
  }

  /**
   * A failing cold boot makes the cold-boot calls in order up to the one
   * that failed, then hangs. Each registration that ran has stored its
   * wrapper's result, which is negative for the failing one (-1 on a
   * non-zero return code, else the negative id the primitive left); the ids
   * of those that did not run are left as they were, and so is the flag.
   */
  lemma ColdBootFailureRun(l: Layout, env: Environment, s: BootState)
    requires !ColdBootSucceeds(l, env)
    ensures var r := SmInitSpec(true, l, env, s);
      && r.outcome == Halted
      && r.events == ColdBootEvents(l)[..CallsBeforeFailure(l, env)] + [Hang]
      && r.state.initDone == s.initDone
    ensures var r := SmInitSpec(true, l, env, s);
      var sm, nvm := SmmInit(l, env.pmp), NvmInit(l, env.pmp);
      && r.state.smId == sm
      && r.state.nvmId == (if sm >= 0 then nvm else s.nvmId)
      && r.state.osId == (if sm >= 0 && nvm >= 0 then OsmInit(env.pmp) else s.osId)
  {
    var r := SmInitSpec(true, l, env, s);
    var ev := ColdBootEvents(l);
    var reg := [RegisterExtension, RegisterRegion(SmmRequest(l))];
    if SmmInit(l, env.pmp) < 0 {
      assert ev[..2] == reg;
    } else if NvmInit(l, env.pmp) < 0 {
      assert ev[..3] == reg + [RegisterRegion(NvmRequest(l))];
    } else if OsmInit(env.pmp) < 0 {
      assert ev[..4] == reg + [RegisterRegion(NvmRequest(l)), RegisterRegion(OsmRequest())];
    } else {
      assert ev[..5] == reg + [RegisterRegion(NvmRequest(l)), RegisterRegion(OsmRequest()), PlatformInitGlobalOnce];
    }
  }

  /**
   * Fail-stop: on the cold-boot hart, a failure of `smm_init`, `nvm_init`,
   * `osm_init` or the one-time platform hook hangs the hart, after none of
   * the key copy, the publication of `sm_init_done` or any permission
   * change, and leaves the flag as it was.
   */
  lemma ColdBootFailureIsFailStop(l: Layout, env: Environment, s: BootState)
    requires !ColdBootSucceeds(l, env)
    ensures var r := SmInitSpec(true, l, env, s);
      && r.outcome == Halted
      && |r.events| > 0 && r.events[|r.events| - 1] == Hang
      && CopyKey !in r.events && InitMetadata !in r.events && Publish !in r.events
      && PmpInit !in r.events && BuildNvmFreeList !in r.events
      && (forall e :: e in r.events ==> !e.SetPerm?)
      && r.state.initDone == s.initDone
  {
    ColdBootFailureRun(l, env, s);
    var r := SmInitSpec(true, l, env, s);
    var pre := ColdBootEvents(l)[..CallsBeforeFailure(l, env)];
    assert forall i :: 0 <= i < |pre| ==> pre[i].RegisterExtension? || pre[i].RegisterRegion? || pre[i] == PlatformInitGlobalOnce;
    forall e | e in r.events
      ensures e.RegisterExtension? || e.RegisterRegion? || e == PlatformInitGlobalOnce || e == Hang
    {
      if e in pre {
        var i :| 0 <= i < |pre| && pre[i] == e;
      }
    }
  }

  /**
   * `sm_init_done` is published only by the cold-boot hart and only once
   * every cold-boot step has succeeded, after all of them in their order.
   */
  lemma PublishedOnlyAfterEveryStep(coldBoot: bool, l: Layout, env: Environment, s: BootState)
    ensures var r := SmInitSpec(coldBoot, l, env, s);
      Publish in r.events <==> coldBoot && ColdBootSucceeds(l, env)
    ensures var r := SmInitSpec(coldBoot, l, env, s);
      Publish in r.events ==>
        && |r.events| >= 8
        && r.events[..8] == ColdBootEvents(l)
        && r.state.initDone
        && r.state.smId == SmmInit(l, env.pmp)
        && r.state.nvmId == NvmInit(l, env.pmp)
        && r.state.osId == OsmInit(env.pmp)
  {
    var r := SmInitSpec(coldBoot, l, env, s);
    if coldBoot && ColdBootSucceeds(l, env) {
      var c := ColdBoot(l, env, s);
      assert c.events == ColdBootEvents(l);
      assert r.events[..8] == c.events;
    } else if coldBoot {
      assert Publish !in ColdBoot(l, env, s).events;
    } else {
      assert Publish !in BarrierEvents(s) + [Hang];
    }
  }

  /**
   * Permissions are applied only past the barrier: a hart reaches `pmp_init`
   * exactly when it finds `sm_init_done` set (for the cold-boot hart: after
   * publishing it). It then denies all access to the monitor's region and to
   * the non-volatile region and grants all access to the OS region, in that
   * order, with the region ids the cold-boot hart recorded, before building
   * the free list and running the per-hart hook.
   */
  lemma PermissionsOnlyAfterBarrier(coldBoot: bool, l: Layout, env: Environment, s: BootState)
    ensures var r := SmInitSpec(coldBoot, l, env, s);
      PmpInit in r.events <==> (if coldBoot then ColdBootSucceeds(l, env) else s.initDone)
    ensures var r := SmInitSpec(coldBoot, l, env, s);
      PmpInit in r.events ==>
        && r.state.initDone
        && r.events == (if coldBoot then ColdBootEvents(l) else []) + BarrierEvents(r.state)
                       + (if env.globalOk then [] else [Hang])
        && r.outcome == (if env.globalOk then Ready else Halted)
  {
    var r := SmInitSpec(coldBoot, l, env, s);
    var tail := if env.globalOk then [] else [Hang];
    if coldBoot {
      if ColdBootSucceeds(l, env) {
        ColdBootSuccessRun(l, env, s);
        assert r.events == ColdBootEvents(l) + (BarrierEvents(r.state) + tail);
        AppendAssociative(ColdBootEvents(l), BarrierEvents(r.state), tail);
        assert PmpInit in BarrierEvents(r.state);
      } else {
        ColdBootFailureIsFailStop(l, env, s);
      }
    } else if s.initDone {
      assert r.events == BarrierEvents(s) + tail;
      assert [] + BarrierEvents(s) == BarrierEvents(s);
    } else {
      assert r.events == [];
    }
  }

  /** A hart that is not the cold-boot hart and finds the flag unset changes nothing and waits. */
  lemma OtherHartWaits(l: Layout, env: Environment, s: BootState)
    requires !s.initDone
    ensures SmInitSpec(false, l, env, s) == Run(s, [], Waiting)
  {
  }

  /**
   * When the cold-boot hart hangs, every other hart, whatever its
   * environment, stays at the barrier: it never reaches permission
   * enforcement.
   */
  lemma ColdFailureStallsOtherHarts(l: Layout, env: Environment, other: Environment, s: BootState)
    requires !s.initDone && !ColdBootSucceeds(l, env)
    ensures var c := SmInitSpec(true, l, env, s);
      SmInitSpec(false, l, other, c.state) == Run(c.state, [], Waiting)
  {
    ColdBootFailureIsFailStop(l, env, s);
  }

  /**
   * After a successful cold boot every other hart applies the same three
   * permissions to the same region ids and leaves the boot globals as they
   * are: they are written once, by the cold-boot hart.
   */
  lemma OtherHartsFollowColdBoot(l: Layout, env: Environment, other: Environment, s: BootState)
    requires ColdBootSucceeds(l, env)
    ensures var c := SmInitSpec(true, l, env, s);
      var o := SmInitSpec(false, l, other, c.state);
      && o.state == c.state
      && o.events == BarrierEvents(c.state) + (if other.globalOk then [] else [Hang])
      && o.events[1..4] == c.events[9..12]
      && c.state == BootState(true, SmmInit(l, env.pmp), NvmInit(l, env.pmp), OsmInit(env.pmp))
  {
  }

  /** `sm_init_done` never reverts, and only the cold-boot hart writes the boot globals. */
  lemma BootStateWrittenOnce(coldBoot: bool, l: Layout, env: Environment, s: BootState)
    ensures s.initDone ==> SmInitSpec(coldBoot, l, env, s).state.initDone
    ensures !coldBoot ==> SmInitSpec(coldBoot, l, env, s).state == s
  {
  }
}
