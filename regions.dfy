/**
 * Registration of the three physical-memory regions with the PMP primitive
 * (`smm_init`, `nvm_init`, `osm_init`).
 *
 * `pmp_region_init_atomic` is hardware plumbing outside this model: it is a
 * parameter `pmp` mapping the request it receives to what it reports, which
 * is its return code and the value left in the caller's `region` variable
 * (initialised to -1 by every caller). Nothing is assumed about it.
 */
module Regions {
  import opened Platform

  /** PMP_PRI_TOP, PMP_PRI_NEXT and PMP_PRI_BOTTOM. */
  datatype Priority = Top | Next | Bottom
  {
    /** Overlap resolution order: Top above Next above Bottom. */
    function Rank(): nat
    {
      match this
      case Top => 2
      case Next => 1
      case Bottom => 0
    }
  }

  /**
   * The arguments of one `pmp_region_init_atomic` call: start, size,
   * priority, and the final flag, set only for the catch-all default region.
   */
  datatype RegionRequest = RegionRequest(base: Word, size: Word, priority: Priority, isDefault: bool)

  /** The primitive's return code and the region id it left behind. */
  datatype PmpReply = PmpReply(ret: int, region: int)

  type Pmp = RegionRequest -> PmpReply

  /** The monitor's own memory: SMM_BASE/SMM_SIZE at top priority. */
  function SmmRequest(l: Layout): RegionRequest
  {
    RegionRequest(l.smmBase, l.smmSize, Top, false)
  }

  /** The non-volatile region: NVM_BASE/NVM_SIZE at the next priority. */
  function NvmRequest(l: Layout): RegionRequest
  {
    RegionRequest(l.nvm.base, l.nvm.size, Next, false)
  }

  /** The untrusted OS's region: start 0, size -1UL, bottom priority, the default entry. */
  function OsmRequest(): RegionRequest
  {
    RegionRequest(0, WORD_MAX, Bottom, true)
  }

  /** The common tail of the three wrappers: -1 on a non-zero return code, the region id otherwise. */
  function RegionIdOf(reply: PmpReply): (id: int)
    ensures reply.ret != 0 ==> id == -1
    ensures reply.ret == 0 ==> id == reply.region
  {
    if reply.ret != 0 then -1 else reply.region
  }

  /** `smm_init`. */
  function SmmInit(l: Layout, pmp: Pmp): (id: int)
    ensures pmp(SmmRequest(l)).ret != 0 ==> id == -1
    ensures pmp(SmmRequest(l)).ret == 0 ==> id == pmp(SmmRequest(l)).region
  {
    RegionIdOf(pmp(SmmRequest(l)))
  }

  /** `nvm_init`. */
  function NvmInit(l: Layout, pmp: Pmp): (id: int)
    ensures pmp(NvmRequest(l)).ret != 0 ==> id == -1
    ensures pmp(NvmRequest(l)).ret == 0 ==> id == pmp(NvmRequest(l)).region
  {
    RegionIdOf(pmp(NvmRequest(l)))
  }

  /** `osm_init`. */
  function OsmInit(pmp: Pmp): (id: int)
    ensures pmp(OsmRequest()).ret != 0 ==> id == -1
    ensures pmp(OsmRequest()).ret == 0 ==> id == pmp(OsmRequest()).region
  {
    RegionIdOf(pmp(OsmRequest()))
  }

  /**
   * When the primitive hands out a non-negative id on success, a wrapper
   * reports a negative id (the boot path's failure test) exactly when the
   * primitive's return code is non-zero.
   */
  lemma FailsExactlyWhenPmpFails(reply: PmpReply)
    requires reply.ret == 0 ==> reply.region >= 0
    ensures RegionIdOf(reply) < 0 <==> reply.ret != 0
    ensures RegionIdOf(reply) == -1 <==> reply.ret != 0
  {
  }

  /**
   * The three requests: the monitor and storage regions outrank the default
   * region, the default region is the only one flagged as such, and it spans
   * the whole address space from 0 with size -1UL.
   */
  lemma RegionRequestsOrdered(l: Layout)
    ensures SmmRequest(l).priority.Rank() > NvmRequest(l).priority.Rank() > OsmRequest().priority.Rank()
    ensures forall p: Priority :: OsmRequest().priority.Rank() <= p.Rank()
    ensures !SmmRequest(l).isDefault && !NvmRequest(l).isDefault && OsmRequest().isDefault
    ensures OsmRequest().base == 0 && OsmRequest().size == WORD_MAX
    ensures SmmRequest(l).base == l.smmBase && SmmRequest(l).size == l.smmSize
    ensures NvmRequest(l).base == l.nvm.base && NvmRequest(l).size == l.nvm.size
  {
  }
}
