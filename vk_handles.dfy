/**
 * The Vulkan values the descriptor helpers (src/renderer/vk_descriptors.cpp) pass
 * around. Handles are opaque ids: nothing here depends on what the driver stores behind
 * them, only on which handle goes where.
 */
module VkHandles {

  const UINT32_LIMIT: int := 0x1_0000_0000

  /** `uint32_t`. */
  type Uint32 = x: int | 0 <= x < UINT32_LIMIT

  /** The conversion to `uint32_t` of an integer of a wider or signed type: modulo 2^32. */
  function ToUint32(x: int): (u: Uint32)
    ensures 0 <= x < UINT32_LIMIT ==> u == x
    ensures (u - x) % UINT32_LIMIT == 0
  {
    x % UINT32_LIMIT
  }

  /** A `VkDescriptorType` enumerant. */
  type DescriptorType = nat

  /** A bit position of a 32-bit Vulkan flag mask. */
  type Bit = b: nat | b < 32

  /** `VkShaderStageFlags`, a 32-bit mask, as the set of its bits: `|` is union. */
  type StageFlags = set<Bit>

  type PoolId = nat
  type SetId = nat
  type LayoutId = nat
  type BufferId = nat
  type ImageViewId = nat
  type SamplerId = nat

  /** A `VkImageLayout` enumerant. */
  type ImageLayout = nat
}
