/**
 * `DescriptorLayoutBuilder` (src/renderer/vk_descriptors.cpp): a list of bindings that
 * `build` stamps with one set of shader stages and hands to the driver.
 */
module DescriptorLayout {
  import opened Defs
  import opened VkHandles

  /** `VkDescriptorSetLayoutBinding`, with the fields the builder sets. */
  datatype Binding = Binding(binding: Uint32, descriptorCount: nat, descriptorType: DescriptorType, stageFlags: StageFlags)

  /** The `VkDescriptorSetLayoutCreateInfo` that `build` passes to the driver. */
  datatype LayoutCreateInfo = LayoutCreateInfo(bindings: seq<Binding>, bindingCount: Uint32, flags: bv32)

  /** Every binding with `stages` ORed into its stage mask. */
  function WithStages(bs: seq<Binding>, stages: StageFlags): (r: seq<Binding>)
    ensures |r| == |bs|
  {
    seq(|bs|, i requires 0 <= i < |bs| => bs[i].(stageFlags := bs[i].stageFlags + stages))
  }

  /**
   * After `WithStages`, a binding has every bit it had before and every bit of `stages`,
   * and no other bit; its number, count and type are as they were.
   */
  lemma WithStagesBits(bs: seq<Binding>, stages: StageFlags, i: int)
    requires 0 <= i < |bs|
    ensures bs[i].stageFlags <= WithStages(bs, stages)[i].stageFlags
    ensures stages <= WithStages(bs, stages)[i].stageFlags
    ensures forall b :: b in WithStages(bs, stages)[i].stageFlags ==> b in bs[i].stageFlags || b in stages
    ensures WithStages(bs, stages)[i].binding == bs[i].binding
    ensures WithStages(bs, stages)[i].descriptorCount == bs[i].descriptorCount
    ensures WithStages(bs, stages)[i].descriptorType == bs[i].descriptorType
  {
  }

  /** Building twice with the same stages is the same as building once. */
  lemma WithStagesIdempotent(bs: seq<Binding>, stages: StageFlags)
    ensures WithStages(WithStages(bs, stages), stages) == WithStages(bs, stages)
  {
    var once := WithStages(bs, stages);
    forall i | 0 <= i < |bs|
      ensures WithStages(once, stages)[i] == once[i]
    {
      assert (bs[i].stageFlags + stages) + stages == bs[i].stageFlags + stages;
    }
  }

  /** Building with `s` and then with `t` is building once with `s | t`. */
  lemma WithStagesCompose(bs: seq<Binding>, s: StageFlags, t: StageFlags)
    ensures WithStages(WithStages(bs, s), t) == WithStages(bs, s + t)
  {
    forall i | 0 <= i < |bs|
      ensures WithStages(WithStages(bs, s), t)[i] == WithStages(bs, s + t)[i]
    {
      assert (bs[i].stageFlags + s) + t == bs[i].stageFlags + (s + t);
    }
  }

  class DescriptorLayoutBuilder {
    /** `bindings`. */
    var bindings: seq<Binding>

    constructor ()
      ensures bindings == []
    {
      bindings := [];
    }

    /** `add_binding`: one more binding, with a descriptor count of 1 and no stages yet. */
    method AddBinding(binding: Uint32, descriptorType: DescriptorType)
      modifies this
      ensures bindings == old(bindings) + [Binding(binding, 1, descriptorType, {})]
    {
      var newBind := Binding(binding, 1, descriptorType, {});
      bindings := bindings + [newBind];
    }

    /** `clear`. */
    method Clear()
      modifies this
      ensures bindings == []
    {
      bindings := [];
    }

    /**
     * `build`: ORs `shaderStages` into every binding in place, then asks the driver for a
     * layout over all of them. `created` is the driver's answer: a layout, or a non-zero
     * `VkResult` on which `VK_CHECK` aborts.
     */
    method Build(shaderStages: StageFlags, flags: bv32, created: Result<LayoutId, int>)
      returns (info: LayoutCreateInfo, r: Result<LayoutId, int>)
      modifies this
      ensures bindings == WithStages(old(bindings), shaderStages)
      ensures info == LayoutCreateInfo(bindings, ToUint32(|bindings|), flags)
      ensures r == created
    {
      for i := 0 to |bindings|
        invariant |bindings| == |old(bindings)|
        invariant forall j :: 0 <= j < i ==> bindings[j] == WithStages(old(bindings), shaderStages)[j]
        invariant forall j :: i <= j < |bindings| ==> bindings[j] == old(bindings)[j]
      {
        var b := bindings[i];
        bindings := bindings[i := b.(stageFlags := b.stageFlags + shaderStages)];
      }
      info := LayoutCreateInfo(bindings, ToUint32(|bindings|), flags);
      r := created;
    }
  }
}
