/**
 * The shadow-map cache object the renderer keeps for each kind of light
 * (regular point lights and virtual point lights): the cube maps it owns and
 * the bookkeeping that hands them out, updated in place. Every operation is
 * proved to move the cache's state exactly as the value-level model in
 * LruSpec says.
 */
module ShadowMapCaches {
  import opened Wrappers
  import opened LruSpec
  import opened FrameBuffers

  /** The textures and framebuffer behind one shadow-map handle; the diffuse cube map exists for VPL maps only. */
  datatype ShadowMap3D = ShadowMap3D(shadowCubeMap: Texture, diffuseCubeMap: Option<Texture>, frameBuffer: FrameBuffer)

  /** The index of the first occurrence of l; removing there is EraseFirst. */
  lemma {:induction false} EraseFirstAt(s: seq<Light>, l: Light, i: nat)
    requires i < |s| && s[i] == l
    requires forall j :: 0 <= j < i ==> s[j] != l
    ensures EraseFirst(s, l) == s[..i] + s[i + 1..]
    decreases i
  {
    if i == 0 {
      assert s[..0] + s[1..] == s[1..];
    } else {
      assert EraseFirst(s, l) == [s[0]] + EraseFirst(s[1..], l);
      EraseFirstAt(s[1..], l, i - 1);
      assert s[1..][..i - 1] == s[1..i];
      assert s[1..][i..] == s[i + 1..];
      assert s[..i] == [s[0]] + s[1..i];
    }
  }

  /** Adding a shadow map to the pool keeps the invariant. */
  lemma InvAfterGrow(c: CacheState, h: Handle)
    requires Inv(c)
    ensures Inv(c.(pool := c.pool + [h]))
  {
    var g := c.(pool := c.pool + [h]);
    assert forall x :: x in c.pool ==> x in g.pool;
    forall x | x in g.usedShadowMaps ensures exists y :: HeldByRecent(g, y, x) {
      var y :| HeldByRecent(c, y, x);
      assert HeldByRecent(g, y, x);
    }
  }

  class ShadowMapCache {
    var shadowMap3DHandles: map<Handle, ShadowMap3D>
    var handleOrder: seq<Handle>             // the order in which iteration visits shadowMap3DHandles
    var lightsToShadowMap: map<Light, Handle>
    var usedShadowMaps: set<Handle>
    var lruLightCache: seq<Light>            // least recently requested first

    /** The bookkeeping as a LruSpec value, with the pool in iteration order. */
    function State(): (c: CacheState)
      reads this
      ensures c.pool == handleOrder && c.lruLightCache == lruLightCache
      ensures c.lightsToShadowMap == lightsToShadowMap && c.usedShadowMaps == usedShadowMaps
    {
      CacheState(handleOrder, lightsToShadowMap, usedShadowMaps, lruLightCache)
    }

    ghost predicate Valid()
      reads this
    {
      && Inv(State())
      && NoDuplicates(handleOrder)
      && (forall h :: h in shadowMap3DHandles <==> h in handleOrder)
    }

    constructor ()
      ensures Valid() && State() == EmptyCache([]) && shadowMap3DHandles == map[]
    {
      shadowMap3DHandles := map[];
      handleOrder := [];
      lightsToShadowMap := map[];
      usedShadowMaps := {};
      lruLightCache := [];
    }

    /** Registers a newly created shadow map under a fresh handle. */
    method Insert(h: Handle, smap: ShadowMap3D)
      requires Valid() && h !in shadowMap3DHandles
      modifies this`shadowMap3DHandles, this`handleOrder
      ensures Valid()
      ensures shadowMap3DHandles == old(shadowMap3DHandles)[h := smap]
      ensures handleOrder == old(handleOrder) + [h]
    {
      InvAfterGrow(State(), h);
      shadowMap3DHandles := shadowMap3DHandles[h := smap];
      handleOrder := handleOrder + [h];
    }

    /** The scan for a shadow map no light is using, in iteration order. */
    method FindFreeHandle() returns (r: Option<Handle>)
      ensures r == FirstFree(handleOrder, usedShadowMaps)
    {
      var i := 0;
      while i < |handleOrder|
        invariant 0 <= i <= |handleOrder|
        invariant forall j :: 0 <= j < i ==> handleOrder[j] in usedShadowMaps
      {
        if handleOrder[i] !in usedShadowMaps {
          assert FirstFreeIndex(handleOrder, usedShadowMaps) == i;
          return Some(handleOrder[i]);
        }
        i := i + 1;
      }
      r := None;
    }

    /** Records l's handle (an existing entry is kept) and marks the handle used. */
    method SetLightShadowMapHandle(l: Light, h: Handle)
      modifies this`lightsToShadowMap, this`usedShadowMaps
      ensures State() == SetHandle(old(State()), l, h)
    {
      if l !in lightsToShadowMap {
        lightsToShadowMap := lightsToShadowMap[l := h];
      }
      usedShadowMaps := usedShadowMaps + {h};
    }

    /** Removes the first occurrence of l from the recency list, if any. */
    method EvictLightFromShadowMapCache(l: Light)
      modifies this`lruLightCache
      ensures lruLightCache == EraseFirst(old(lruLightCache), l)
    {
      var i := 0;
      while i < |lruLightCache|
        invariant 0 <= i <= |lruLightCache|
        invariant lruLightCache == old(lruLightCache)
        invariant forall j :: 0 <= j < i ==> lruLightCache[j] != l
      {
        if lruLightCache[i] == l {
          EraseFirstAt(lruLightCache, l, i);
          lruLightCache := lruLightCache[..i] + lruLightCache[i + 1..];
          return;
        }
        i := i + 1;
      }
    }

    method ShadowMapExistsForLight(l: Light) returns (b: bool)
      ensures b <==> Exists(State(), l)
    {
      b := l in lightsToShadowMap;
    }

    /** Moves l to the back of the recency list, as the most recently requested light. */
    method AddLightToShadowMapCache(l: Light)
      modifies this`lruLightCache
      ensures lruLightCache == Touch(old(lruLightCache), l)
    {
      EvictLightFromShadowMapCache(l);
      lruLightCache := lruLightCache + [l];
    }

    /**
     * The handle of l's shadow map, allocating a free one or taking the least
     * recently requested light's if l has none.
     */
    method GetOrAllocateShadowMapHandleForLight(l: Light) returns (h: Handle)
      requires Valid() && |handleOrder| > 0   // the handle map is not empty
      modifies this`lightsToShadowMap, this`usedShadowMaps, this`lruLightCache
      ensures Valid()
      ensures State() == GetOrAllocate(old(State()), l).0
      ensures h == GetOrAllocate(old(State()), l).1
      ensures h in shadowMap3DHandles
    {
      ghost var c0 := State();
      if l !in lightsToShadowMap {
        var handle := FindFreeHandle();
        if handle.None? {
          ExhaustedPoolHasRecent(c0);
          var oldest := lruLightCache[0];
          lruLightCache := lruLightCache[1..];
          var held := lightsToShadowMap[oldest];
          EvictLightFromShadowMapCache(oldest);
          handle := Some(held);
        }
        SetLightShadowMapHandle(l, handle.value);
        AddLightToShadowMapCache(l);
        h := handle.value;
      } else {
        AddLightToShadowMapCache(l);
        h := lightsToShadowMap[l];
      }
      assert State() == GetOrAllocate(c0, l).0;
      assert Inv(State()) by {
        GetOrAllocateKeepsInv(c0, l);
      }
    }

    /** The shadow map behind the handle GetOrAllocateShadowMapHandleForLight returns. */
    method GetOrAllocateShadowMapForLight(l: Light) returns (smap: ShadowMap3D)
      requires Valid() && |handleOrder| > 0   // the handle map is not empty
      modifies this`lightsToShadowMap, this`usedShadowMaps, this`lruLightCache
      ensures Valid()
      ensures State() == GetOrAllocate(old(State()), l).0
      ensures smap == shadowMap3DHandles[GetOrAllocate(old(State()), l).1]
    {
      var h := GetOrAllocateShadowMapHandleForLight(l);
      smap := shadowMap3DHandles[h];
    }

    /** Frees l's shadow map and forgets l; nothing happens for a light without one. */
    method RemoveLightFromShadowMapCache(l: Light)
      requires Valid()
      modifies this`lightsToShadowMap, this`usedShadowMaps, this`lruLightCache
      ensures Valid()
      ensures State() == Remove(old(State()), l)
    {
      ghost var c0 := State();
      var present := ShadowMapExistsForLight(l);
      if present {
        var h := lightsToShadowMap[l];
        lightsToShadowMap := lightsToShadowMap - {l};
        usedShadowMaps := usedShadowMaps - {h};
        EvictLightFromShadowMapCache(l);
        assert State() == Remove(c0, l) by {
          assert Remove(c0, l) == CacheState(c0.pool, c0.lightsToShadowMap - {l}, c0.usedShadowMaps - {h},
                                             EraseFirst(c0.lruLightCache, l));
        }
      }
      assert Inv(State()) by {
        RemoveKeepsInv(c0, l);
      }
    }
  }
}
