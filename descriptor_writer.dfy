/**
 * `DescriptorWriter` (src/renderer/vk_descriptors.cpp): a list of pending descriptor
 * writes, each pointing at a buffer or image description the writer keeps alongside,
 * and `update_set`, which aims every pending write at one descriptor set and submits
 * them all.
 *
 * The descriptions live in deques, whose elements never move, so a write's pointer to
 * its description is modelled as the description's position in its list.
 */
module DescriptorWriting {
  import opened Defs
  import opened VkHandles

  /** `VkDescriptorBufferInfo`. */
  datatype BufferInfo = BufferInfo(buffer: BufferId, offset: nat, range: nat)

  /** `VkDescriptorImageInfo`. */
  datatype ImageInfo = ImageInfo(sampler: SamplerId, imageView: ImageViewId, imageLayout: ImageLayout)

  /** A write's `dstSet`: `VK_NULL_HANDLE` until `update_set`, then a set. */
  datatype DstSet = NullSet | ToSet(id: SetId)

  /** Where a write's `pBufferInfo` or `pImageInfo` points. */
  datatype InfoRef = BufferInfoAt(bufferIndex: nat) | ImageInfoAt(imageIndex: nat)

  /** `VkWriteDescriptorSet`, with the fields the writer sets. */
  datatype Write = Write(dstBinding: Uint32, dstSet: DstSet, descriptorCount: nat, descriptorType: DescriptorType, info: InfoRef)

  /** The writer's three lists. */
  datatype Pending = Pending(writes: seq<Write>, imageInfos: seq<ImageInfo>, bufferInfos: seq<BufferInfo>)

  /** The description a write points at, once its pointer is followed. */
  datatype Described = DescribesBuffer(buffer: BufferInfo) | DescribesImage(image: ImageInfo)

  /** A write as the driver reads it: its pointer followed. */
  datatype Resolved = Resolved(dstBinding: Uint32, dstSet: DstSet, descriptorCount: nat, descriptorType: DescriptorType, described: Described)

  /** Every pending write points at a description the writer holds. */
  predicate RefsValid(p: Pending) {
    forall i :: 0 <= i < |p.writes| ==> RefIn(p, p.writes[i].info)
  }

  predicate RefIn(p: Pending, r: InfoRef) {
    match r
    case BufferInfoAt(k) => k < |p.bufferInfos|
    case ImageInfoAt(k) => k < |p.imageInfos|
  }

  /** Write `i` with its pointer followed. */
  function ResolveAt(p: Pending, i: nat): Resolved
    requires RefsValid(p) && i < |p.writes|
  {
    var w := p.writes[i];
    assert RefIn(p, w.info);
    var d := match w.info
      case BufferInfoAt(k) => DescribesBuffer(p.bufferInfos[k])
      case ImageInfoAt(k) => DescribesImage(p.imageInfos[k]);
    Resolved(w.dstBinding, w.dstSet, w.descriptorCount, w.descriptorType, d)
  }

  /** `write_buffer`: one more buffer description, and one more write pointing at it. */
  function WriteBufferSpec(p: Pending, binding: int, buffer: BufferId, size: nat, offset: nat, descriptorType: DescriptorType): Pending {
    var info := BufferInfo(buffer, offset, size);
    var w := Write(ToUint32(binding), NullSet, 1, descriptorType, BufferInfoAt(|p.bufferInfos|));
    p.(writes := p.writes + [w], bufferInfos := p.bufferInfos + [info])
  }

  /** `write_image`: one more image description, and one more write pointing at it. */
  function WriteImageSpec(p: Pending, binding: int, image: ImageViewId, sampler: SamplerId, layout: ImageLayout, descriptorType: DescriptorType): Pending {
    var info := ImageInfo(sampler, image, layout);
    var w := Write(ToUint32(binding), NullSet, 1, descriptorType, ImageInfoAt(|p.imageInfos|));
    p.(writes := p.writes + [w], imageInfos := p.imageInfos + [info])
  }

  /** Every write aimed at `target`. */
  function BindAll(ws: seq<Write>, target: SetId): (r: seq<Write>)
    ensures |r| == |ws|
  {
    seq(|ws|, i requires 0 <= i < |ws| => ws[i].(dstSet := ToSet(target)))
  }

  // ---------------------------------------------------------------------------
  // Properties
  // ---------------------------------------------------------------------------

  /**
   * `write_buffer` keeps the writer's pointers valid, leaves what every earlier write
   * describes unchanged, and adds a write of count 1 with no set yet that describes
   * exactly the buffer range given, at the binding given converted to `uint32_t`.
   */
  lemma WriteBufferAppends(p: Pending, binding: int, buffer: BufferId, size: nat, offset: nat, descriptorType: DescriptorType)
    requires RefsValid(p)
    ensures var q := WriteBufferSpec(p, binding, buffer, size, offset, descriptorType);
      && RefsValid(q)
      && |q.writes| == |p.writes| + 1 && q.imageInfos == p.imageInfos
      && (forall i :: 0 <= i < |p.writes| ==> ResolveAt(q, i) == ResolveAt(p, i))
      && ResolveAt(q, |p.writes|)
         == Resolved(ToUint32(binding), NullSet, 1, descriptorType, DescribesBuffer(BufferInfo(buffer, offset, size)))
  {
    var q := WriteBufferSpec(p, binding, buffer, size, offset, descriptorType);
    forall i | 0 <= i < |p.writes|
      ensures RefIn(q, q.writes[i].info) && ResolveAt(q, i) == ResolveAt(p, i)
    {
      assert q.writes[i] == p.writes[i];
      assert RefIn(p, p.writes[i].info);
    }
  }

  /** As `WriteBufferAppends`, for `write_image`. */
  lemma WriteImageAppends(p: Pending, binding: int, image: ImageViewId, sampler: SamplerId, layout: ImageLayout, descriptorType: DescriptorType)
    requires RefsValid(p)
    ensures var q := WriteImageSpec(p, binding, image, sampler, layout, descriptorType);
      && RefsValid(q)
      && |q.writes| == |p.writes| + 1 && q.bufferInfos == p.bufferInfos
      && (forall i :: 0 <= i < |p.writes| ==> ResolveAt(q, i) == ResolveAt(p, i))
      && ResolveAt(q, |p.writes|)
         == Resolved(ToUint32(binding), NullSet, 1, descriptorType, DescribesImage(ImageInfo(sampler, image, layout)))
  {
    var q := WriteImageSpec(p, binding, image, sampler, layout, descriptorType);
    forall i | 0 <= i < |p.writes|
      ensures RefIn(q, q.writes[i].info) && ResolveAt(q, i) == ResolveAt(p, i)
    {
      assert q.writes[i] == p.writes[i];
      assert RefIn(p, p.writes[i].info);
    }
  }

  /**
   * After `update_set`, every write targets `target` and describes what it described
   * before, at the same binding, count and type.
   */
  lemma BindAllResolves(p: Pending, target: SetId)
    requires RefsValid(p)
    ensures RefsValid(p.(writes := BindAll(p.writes, target)))
    ensures forall i :: 0 <= i < |p.writes| ==>
      ResolveAt(p.(writes := BindAll(p.writes, target)), i) == ResolveAt(p, i).(dstSet := ToSet(target))
  {
    var q := p.(writes := BindAll(p.writes, target));
    forall i | 0 <= i < |p.writes|
      ensures RefIn(q, q.writes[i].info)
      ensures ResolveAt(q, i) == ResolveAt(p, i).(dstSet := ToSet(target))
    {
      assert q.writes[i].info == p.writes[i].info;
      assert RefIn(p, p.writes[i].info);
    }
  }

  /** Updating for one set and then another leaves every write aimed at the last one. */
  lemma BindAllLastWins(ws: seq<Write>, a: SetId, b: SetId)
    ensures BindAll(BindAll(ws, a), b) == BindAll(ws, b)
  {
    forall i | 0 <= i < |ws|
      ensures BindAll(BindAll(ws, a), b)[i] == BindAll(ws, b)[i]
    {
    }
  }

  class DescriptorWriter {
    /** `writes`. */
    var writes: seq<Write>
    /** `image_infos`. */
    var imageInfos: seq<ImageInfo>
    /** `buffer_infos`. */
    var bufferInfos: seq<BufferInfo>

    function State(): Pending
      reads this
    {
      Pending(writes, imageInfos, bufferInfos)
    }

    constructor ()
      ensures State() == Pending([], [], []) && RefsValid(State())
    {
      writes, imageInfos, bufferInfos := [], [], [];
    }

    /** `write_buffer`. `binding` is a C++ `int`; `dstBinding` is its `uint32_t` conversion. */
    method WriteBuffer(binding: int, buffer: BufferId, size: nat, offset: nat, descriptorType: DescriptorType)
      requires IsInt32(binding)
      modifies this
      ensures State() == WriteBufferSpec(old(State()), binding, buffer, size, offset, descriptorType)
    {
      var infoIndex := |bufferInfos|;
      bufferInfos := bufferInfos + [BufferInfo(buffer, offset, size)];
      var write := Write(ToUint32(binding), NullSet, 1, descriptorType, BufferInfoAt(infoIndex));
      writes := writes + [write];
    }

    /** `write_image`. */
    method WriteImage(binding: int, image: ImageViewId, sampler: SamplerId, layout: ImageLayout, descriptorType: DescriptorType)
      requires IsInt32(binding)
      modifies this
      ensures State() == WriteImageSpec(old(State()), binding, image, sampler, layout, descriptorType)
    {
      var infoIndex := |imageInfos|;
      imageInfos := imageInfos + [ImageInfo(sampler, image, layout)];
      var write := Write(ToUint32(binding), NullSet, 1, descriptorType, ImageInfoAt(infoIndex));
      writes := writes + [write];
    }

    /** `clear`: all three lists emptied. */
    method Clear()
      modifies this
      ensures State() == Pending([], [], [])
    {
      imageInfos := [];
      bufferInfos := [];
      writes := [];
    }

    /**
     * `update_set`: aim every write at `target` in place, then submit them; `count` is the
     * number of writes as `uint32_t`, and `submitted` the writes passed to the driver.
     */
    method UpdateSet(target: SetId) returns (count: Uint32, submitted: seq<Write>)
      modifies this
      ensures writes == BindAll(old(writes), target)
      ensures imageInfos == old(imageInfos) && bufferInfos == old(bufferInfos)
      ensures submitted == writes && count == ToUint32(|writes|)
    {
      for i := 0 to |writes|
        invariant |writes| == |old(writes)|
        invariant forall j :: 0 <= j < i ==> writes[j] == BindAll(old(writes), target)[j]
        invariant forall j :: i <= j < |writes| ==> writes[j] == old(writes)[j]
        invariant imageInfos == old(imageInfos) && bufferInfos == old(bufferInfos)
      {
        var w := writes[i];
        writes := writes[i := w.(dstSet := ToSet(target))];
      }
      count := ToUint32(|writes|);
      submitted := writes;
    }
  }
}
