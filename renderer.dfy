/**
 * The per-instance plumbing of the multiple-objects page: one world-transform
 * uniform buffer and one bind group per extra cube, filled once at setup, and
 * the frame that writes every cube's transform and issues one indexed draw
 * per cube.
 *
 * GPU buffers are handles handed out by the device; what a world-transform
 * buffer holds is modelled by the cube's grid placement (the matrix itself is
 * built from floating-point rotations and is not modelled).
 */
module MultipleObjects {
  import opened CubeGrid
  import VertexPacker

  /** A GPU buffer handle. */
  type BufferId = nat

  /**
   * The world transform written for a cube: translate to the scene offset
   * plus `steps` grid steps, then apply the scene's rotation.
   */
  datatype WorldTransform = WorldTransform(steps: Steps)

  /**
   * A bind group of the main pipeline, by its uniform buffers at bindings 0
   * (world transform), 1 (camera inverse) and 2 (projection); bindings 3 and
   * 4 hold the same sampler and views of the same texture in every group.
   */
  datatype BindGroup = BindGroup(worldTransform: BufferId, cameraWorldInverseTransform: BufferId, projectionTransform: BufferId)

  /** `drawIndexed(indexCount)` issued while `bindGroup` is bound. */
  datatype Draw = DrawIndexed(bindGroup: BindGroup, indexCount: nat)

  /** The device: it hands out buffers and remembers what each world-transform buffer was last written with. */
  class Device {
    var nextBuffer: nat
    var contents: map<BufferId, WorldTransform>

    constructor ()
      ensures nextBuffer == 0 && contents == map[]
    {
      nextBuffer := 0;
      contents := map[];
    }

    /** `device.createBuffer`: a buffer no earlier call returned. */
    method CreateBuffer() returns (id: BufferId)
      modifies this`nextBuffer
      ensures id == old(nextBuffer) && nextBuffer == old(nextBuffer) + 1
    {
      id := nextBuffer;
      nextBuffer := nextBuffer + 1;
    }

    /** `device.queue.writeBuffer`: the buffer now holds `value`, every other buffer is unchanged. */
    method WriteBuffer(id: BufferId, value: WorldTransform)
      modifies this`contents
      ensures contents == old(contents)[id := value]
    {
      contents := contents[id := value];
    }
  }

  ghost predicate Increasing(s: seq<BufferId>) {
    forall i, j :: 0 <= i < j < |s| ==> s[i] < s[j]
  }

  /** The page's state after setup. */
  class App {
    const device: Device
    var worldTransform: BufferId
    var cameraWorldInverseTransform: BufferId
    var projectionTransform: BufferId
    var moreWorldTransforms: seq<BufferId>
    var main: BindGroup
    var moreMains: seq<BindGroup>
    /** Byte size of the index buffer. */
    var indexBufferSize: nat
    /** The indexed draws of the last frame, in order. */
    var draws: seq<Draw>

    /** The uniform buffers in the order they were created. */
    ghost function UniformBuffers(): seq<BufferId>
      reads this
    {
      [cameraWorldInverseTransform, projectionTransform, worldTransform] + moreWorldTransforms
    }

    /**
     * One world-transform buffer and one bind group per extra cube; every
     * uniform buffer is distinct; bind group `i` binds world-transform buffer
     * `i` and the shared camera and projection buffers; the index buffer holds
     * whole 16-bit indices.
     */
    ghost predicate Valid()
      reads this, device
    {
      && |moreWorldTransforms| == MORE_CUBE_COUNT
      && |moreMains| == MORE_CUBE_COUNT
      && Increasing(UniformBuffers())
      && (forall k :: 0 <= k < |UniformBuffers()| ==> UniformBuffers()[k] < device.nextBuffer)
      && main == BindGroup(worldTransform, cameraWorldInverseTransform, projectionTransform)
      && (forall i :: 0 <= i < MORE_CUBE_COUNT ==>
            moreMains[i] == BindGroup(moreWorldTransforms[i], cameraWorldInverseTransform, projectionTransform))
      && indexBufferSize % VertexPacker.INDEX_SIZE == 0
    }

    /**
     * Setup: the uniform buffers (the first world-transform buffer is created
     * twice, the second replacing the first), one world-transform buffer per
     * extra cube, then the bind groups, with an index buffer for `indices`.
     */
    constructor (indices: seq<VertexPacker.Uint16>)
      ensures Valid() && fresh(device)
      ensures device.contents == map[] && draws == []
      ensures indexBufferSize == |indices| * VertexPacker.INDEX_SIZE
    {
      var dev := new Device();
      device := dev;
      indexBufferSize := |indices| * VertexPacker.INDEX_SIZE;

      var discarded := dev.CreateBuffer();
      var camera := dev.CreateBuffer();
      var projection := dev.CreateBuffer();
      var world := dev.CreateBuffer();
      worldTransform, cameraWorldInverseTransform, projectionTransform := world, camera, projection;

      var buffers: seq<BufferId> := [];
      for i := 0 to MORE_CUBE_COUNT
        invariant dev.nextBuffer == world + 1 + i && dev.contents == map[]
        invariant |buffers| == i
        invariant forall k :: 0 <= k < i ==> buffers[k] == world + 1 + k
      {
        var b := dev.CreateBuffer();
        buffers := buffers + [b];
      }
      moreWorldTransforms := buffers;

      main := BindGroup(world, camera, projection);
      var groups: seq<BindGroup> := [];
      for i := 0 to MORE_CUBE_COUNT
        invariant |groups| == i
        invariant forall k :: 0 <= k < i ==> groups[k] == BindGroup(buffers[k], camera, projection)
      {
        groups := groups + [BindGroup(buffers[i], camera, projection)];
      }
      moreMains := groups;
      draws := [];
    }

    /** Every cube has its own world-transform buffer. */
    lemma WorldBuffersDistinct()
      requires Valid()
      ensures forall k :: 0 <= k < MORE_CUBE_COUNT ==> moreWorldTransforms[k] != worldTransform
      ensures forall k, l :: 0 <= k < l < MORE_CUBE_COUNT ==> moreWorldTransforms[k] < moreWorldTransforms[l]
    {
      forall k | 0 <= k < MORE_CUBE_COUNT
        ensures moreWorldTransforms[k] != worldTransform
      {
        assert UniformBuffers()[3 + k] == moreWorldTransforms[k];
        assert UniformBuffers()[2] == worldTransform;
      }
      forall k, l | 0 <= k < l < MORE_CUBE_COUNT
        ensures moreWorldTransforms[k] < moreWorldTransforms[l]
      {
        assert UniformBuffers()[3 + k] == moreWorldTransforms[k];
        assert UniformBuffers()[3 + l] == moreWorldTransforms[l];
      }
    }

    /**
     * The frame's buffer writes: the main cube's buffer gets the main
     * transform, buffer `i` gets extra cube `i`'s grid placement, and no other
     * buffer changes; no two cubes get the same placement.
     */
    method WriteTransforms()
      requires Valid()
      modifies device`contents
      ensures worldTransform in device.contents && device.contents[worldTransform] == WorldTransform(Steps(0, 0))
      ensures forall i :: 0 <= i < MORE_CUBE_COUNT ==>
        moreWorldTransforms[i] in device.contents &&
        device.contents[moreWorldTransforms[i]] == WorldTransform(GridSteps(i, MORE_CUBE_COUNT_PER_ROW))
      ensures forall b :: b in device.contents <==>
        (b in old(device.contents) || b == worldTransform || b in moreWorldTransforms)
      ensures forall b | b in old(device.contents) && b != worldTransform && b !in moreWorldTransforms ::
        device.contents[b] == old(device.contents)[b]
      ensures forall k :: 0 <= k < MORE_CUBE_COUNT ==>
        device.contents[moreWorldTransforms[k]] != device.contents[worldTransform]
      ensures forall k, l :: 0 <= k < l < MORE_CUBE_COUNT ==>
        device.contents[moreWorldTransforms[k]] != device.contents[moreWorldTransforms[l]]
    {
      PerRowIsTen();
      WorldBuffersDistinct();
      device.WriteBuffer(worldTransform, WorldTransform(Steps(0, 0)));
      for i := 0 to MORE_CUBE_COUNT
        invariant worldTransform in device.contents && device.contents[worldTransform] == WorldTransform(Steps(0, 0))
        invariant forall k :: 0 <= k < i ==>
          moreWorldTransforms[k] in device.contents &&
          device.contents[moreWorldTransforms[k]] == WorldTransform(GridSteps(k, MORE_CUBE_COUNT_PER_ROW))
        invariant forall b :: b in device.contents <==>
          (b in old(device.contents) || b == worldTransform || b in moreWorldTransforms[..i])
        invariant forall b | b in old(device.contents) && b != worldTransform && b !in moreWorldTransforms[..i] ::
          device.contents[b] == old(device.contents)[b]
      {
        assert moreWorldTransforms[..i + 1] == moreWorldTransforms[..i] + [moreWorldTransforms[i]];
        device.WriteBuffer(moreWorldTransforms[i], WorldTransform(GridSteps(i, MORE_CUBE_COUNT_PER_ROW)));
      }
      assert moreWorldTransforms[..MORE_CUBE_COUNT] == moreWorldTransforms;
      forall k | 0 <= k < MORE_CUBE_COUNT
        ensures device.contents[moreWorldTransforms[k]] != device.contents[worldTransform]
      {
        NoExtraCubeAtOrigin(k, MORE_CUBE_COUNT_PER_ROW);
      }
      forall k, l | 0 <= k < l < MORE_CUBE_COUNT
        ensures device.contents[moreWorldTransforms[k]] != device.contents[moreWorldTransforms[l]]
      {
        GridStepsInjective(k, l, MORE_CUBE_COUNT_PER_ROW);
      }
    }

    /**
     * The frame's draws: one with the main bind group, then one per extra cube
     * with its own bind group, each over every index of the index buffer
     * (its byte size over the two bytes of a 16-bit index).
     */
    method DrawCubes()
      requires Valid()
      modifies this`draws
      ensures |draws| == 1 + MORE_CUBE_COUNT
      ensures draws[0] == DrawIndexed(main, indexBufferSize / VertexPacker.INDEX_SIZE)
      ensures forall i :: 0 <= i < MORE_CUBE_COUNT ==>
        draws[i + 1] == DrawIndexed(moreMains[i], indexBufferSize / VertexPacker.INDEX_SIZE)
      ensures forall d | d in draws :: d.indexCount * VertexPacker.INDEX_SIZE == indexBufferSize
    {
      var indexCount := indexBufferSize / VertexPacker.INDEX_SIZE;
      assert indexCount * VertexPacker.INDEX_SIZE == indexBufferSize;
      draws := [DrawIndexed(main, indexCount)];
      for i := 0 to MORE_CUBE_COUNT
        invariant |draws| == i + 1
        invariant forall d | d in draws :: d.indexCount == indexCount
        invariant draws[0] == DrawIndexed(main, indexCount)
        invariant forall k :: 0 <= k < i ==> draws[k + 1] == DrawIndexed(moreMains[k], indexCount)
      {
        draws := draws + [DrawIndexed(moreMains[i], indexCount)];
      }
    }

    /** One frame: write every cube's transform, then draw every cube. */
    method Render()
      requires Valid()
      modifies this`draws, device`contents
      ensures Valid()
      ensures worldTransform in device.contents && device.contents[worldTransform] == WorldTransform(Steps(0, 0))
      ensures forall i :: 0 <= i < MORE_CUBE_COUNT ==>
        moreWorldTransforms[i] in device.contents &&
        device.contents[moreWorldTransforms[i]] == WorldTransform(GridSteps(i, MORE_CUBE_COUNT_PER_ROW))
      ensures forall b :: b in device.contents <==>
        (b in old(device.contents) || b == worldTransform || b in moreWorldTransforms)
      ensures forall b | b in old(device.contents) && b != worldTransform && b !in moreWorldTransforms ::
        device.contents[b] == old(device.contents)[b]
      ensures forall k :: 0 <= k < MORE_CUBE_COUNT ==>
        device.contents[moreWorldTransforms[k]] != device.contents[worldTransform]
      ensures forall k, l :: 0 <= k < l < MORE_CUBE_COUNT ==>
        device.contents[moreWorldTransforms[k]] != device.contents[moreWorldTransforms[l]]
      ensures |draws| == 1 + MORE_CUBE_COUNT
      ensures draws[0] == DrawIndexed(main, indexBufferSize / VertexPacker.INDEX_SIZE)
      ensures forall i :: 0 <= i < MORE_CUBE_COUNT ==>
        draws[i + 1] == DrawIndexed(moreMains[i], indexBufferSize / VertexPacker.INDEX_SIZE)
      ensures forall d | d in draws :: d.indexCount * VertexPacker.INDEX_SIZE == indexBufferSize
    {
      WriteTransforms();
      DrawCubes();
    }
  }
}
