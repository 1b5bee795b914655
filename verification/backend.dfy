/**
 * The deferred renderer's backend: its two shadow-map caches and the pools
 * behind them, the per-frame light scheduling that feeds them, the validity
 * flag, the shader binding and the sizing of the post-processing buffers.
 *
 * The GPU is not modelled. Whether a framebuffer is complete and whether a
 * shader compiled are parameters; texture and framebuffer names come from a
 * counter standing in for the driver's name generation.
 */
module Backend {
  import opened Wrappers
  import opened LruSpec
  import opened FrameBuffers
  import opened ShadowMapCaches
  import opened Scheduling
  import opened PostFx

  /** The null texture handle; handles the backend creates are positive. */
  const NULL_HANDLE: Handle := 0

  /** Screen-sized framebuffers checked before the post-processing ones. */
  const SCREEN_BUFFERS: nat := 6

  datatype ShaderCall = BindCall(shader: nat) | UnbindCall(shader: nat)

  /** The shader left bound by a history of bind and unbind calls. */
  function BoundShader(calls: seq<ShaderCall>): (r: Option<nat>)
    ensures calls == [] ==> r.None?
    ensures calls != [] && calls[|calls| - 1].BindCall? ==> r == Some(calls[|calls| - 1].shader)
    ensures calls != [] && calls[|calls| - 1].UnbindCall? ==> r.None?
  {
    if calls == [] then None
    else match calls[|calls| - 1]
      case BindCall(s) => Some(s)
      case UnbindCall(_) => None
  }

  /**
   * Shaders are never bound on top of one another: a bind happens only with
   * nothing bound, and an unbind always names the shader that is bound.
   */
  ghost predicate WellNested(calls: seq<ShaderCall>) {
    forall i :: 0 <= i < |calls| ==>
      match calls[i]
      case BindCall(_) => BoundShader(calls[..i]).None?
      case UnbindCall(s) => BoundShader(calls[..i]) == Some(s)
  }

  class RendererBackend {
    var smapCache: ShadowMapCache             // shadow maps of regular point lights
    var vplSmapCache: ShadowMapCache          // shadow maps of virtual point lights
    var isValid: bool
    var dummyCubeMap: Handle                  // the shadow map bound to slot 0 when no light has one
    var nextHandle: Handle                    // the next handle TextureHandle::NextHandle gives out
    var nextGlName: nat                       // the next name the driver gives a texture or framebuffer
    var currentShader: Option<nat>
    ghost var shaderCalls: seq<ShaderCall>
    var lightsToUpdate: seq<Light>            // the frame's queue of pending shadow-map updates
    var postFxBuffers: seq<Size>
    var gaussianBuffers: seq<Size>
    var numDownsampleIterations: nat
    var numUpsampleIterations: nat

    ghost predicate Valid()
      reads this`smapCache, this`vplSmapCache, this`nextHandle, this`shaderCalls, this`currentShader
      reads smapCache, vplSmapCache
    {
      && smapCache != vplSmapCache
      && smapCache.Valid() && vplSmapCache.Valid()
      && HandlesValid()
      && ShadersValid()
    }

    /** Every pooled handle was given out by the backend, and no handle is in both pools. */
    ghost predicate HandlesValid()
      reads this`smapCache, this`vplSmapCache, this`nextHandle
      reads smapCache`shadowMap3DHandles, vplSmapCache`shadowMap3DHandles
    {
      && NULL_HANDLE < nextHandle
      && (forall h :: h in smapCache.shadowMap3DHandles ==> NULL_HANDLE < h < nextHandle)
      && (forall h :: h in vplSmapCache.shadowMap3DHandles ==> NULL_HANDLE < h < nextHandle)
      && (forall h :: h in smapCache.shadowMap3DHandles ==> h !in vplSmapCache.shadowMap3DHandles)
    }

    /** The bound shader is the one the call history leaves bound, and the history is well nested. */
    ghost predicate ShadersValid()
      reads this`shaderCalls, this`currentShader
    {
      WellNested(shaderCalls) && BoundShader(shaderCalls) == currentShader
    }

    /**
     * Construction as far as this model follows it: the shaders are validated
     * (shaderValid holds each shader's compile verdict), the dummy cube map is
     * created in the regular pool, and then the pools of shadow maps for
     * regular lights and for VPLs. Each *Complete sequence holds the driver's
     * verdict on the framebuffers created, in order.
     */
    constructor (shaderValid: seq<bool>, dummyComplete: bool, regularComplete: seq<bool>, vplComplete: seq<bool>)
      ensures Valid() && fresh(smapCache) && fresh(vplSmapCache)
      ensures isValid <==> && (forall i :: 0 <= i < |shaderValid| ==> shaderValid[i])
                           && dummyComplete
                           && (forall i :: 0 <= i < |regularComplete| ==> regularComplete[i])
                           && (forall i :: 0 <= i < |vplComplete| ==> vplComplete[i])
      ensures dummyComplete ==> dummyCubeMap in smapCache.shadowMap3DHandles
      ensures !dummyComplete ==> dummyCubeMap == NULL_HANDLE
      ensures |smapCache.handleOrder| == (if dummyComplete then 1 else 0) + CountTrue(regularComplete)
      ensures |vplSmapCache.handleOrder| == CountTrue(vplComplete)
      ensures smapCache.lightsToShadowMap == map[] && vplSmapCache.lightsToShadowMap == map[]
      ensures currentShader.None? && lightsToUpdate == [] && postFxBuffers == []
    {
      smapCache := new ShadowMapCache();
      vplSmapCache := new ShadowMapCache();
      isValid := true;
      dummyCubeMap := NULL_HANDLE;
      nextHandle := 1;
      nextGlName := 1;
      currentShader := None;
      shaderCalls := [];
      lightsToUpdate := [];
      postFxBuffers := [];
      gaussianBuffers := [];
      numDownsampleIterations := 0;
      numUpsampleIterations := 0;
      new;
      CreateResources(shaderValid, dummyComplete, regularComplete, vplComplete);
    }

    /** The part of construction after the fields are set: shaders, the dummy cube map, the pools. */
    method CreateResources(shaderValid: seq<bool>, dummyComplete: bool, regularComplete: seq<bool>, vplComplete: seq<bool>)
      requires Valid()
      requires smapCache.handleOrder == [] && vplSmapCache.handleOrder == []
      modifies this, smapCache, vplSmapCache
      ensures Valid() && smapCache == old(smapCache) && vplSmapCache == old(vplSmapCache)
      ensures isValid <==> && (forall i :: 0 <= i < |shaderValid| ==> shaderValid[i])
                           && dummyComplete
                           && (forall i :: 0 <= i < |regularComplete| ==> regularComplete[i])
                           && (forall i :: 0 <= i < |vplComplete| ==> vplComplete[i])
      ensures dummyComplete ==> dummyCubeMap in smapCache.shadowMap3DHandles
      ensures !dummyComplete ==> dummyCubeMap == NULL_HANDLE
      ensures |smapCache.handleOrder| == (if dummyComplete then 1 else 0) + CountTrue(regularComplete)
      ensures |vplSmapCache.handleOrder| == CountTrue(vplComplete)
      ensures smapCache.lightsToShadowMap == old(smapCache.lightsToShadowMap)
      ensures vplSmapCache.lightsToShadowMap == old(vplSmapCache.lightsToShadowMap)
      ensures currentShader == old(currentShader) && lightsToUpdate == old(lightsToUpdate)
      ensures postFxBuffers == old(postFxBuffers)
    {
      ValidateAllShaders(shaderValid);
      dummyCubeMap := CreateShadowMap3D(false, dummyComplete);
      ghost var dummyPool := smapCache.handleOrder;
      InitPointShadowMaps(regularComplete, vplComplete);
      assert dummyComplete ==> dummyPool == [dummyCubeMap] && dummyCubeMap in smapCache.handleOrder;
    }

    /** Creates the regular pool and then the VPL pool, one shadow map per verdict. */
    method InitPointShadowMaps(regularComplete: seq<bool>, vplComplete: seq<bool>)
      requires Valid()
      modifies this, smapCache, vplSmapCache
      ensures Valid()
      ensures smapCache == old(smapCache) && vplSmapCache == old(vplSmapCache)
      ensures isValid <==> && old(isValid)
                           && (forall i :: 0 <= i < |regularComplete| ==> regularComplete[i])
                           && (forall i :: 0 <= i < |vplComplete| ==> vplComplete[i])
      ensures |smapCache.handleOrder| == |old(smapCache.handleOrder)| + CountTrue(regularComplete)
      ensures |vplSmapCache.handleOrder| == |old(vplSmapCache.handleOrder)| + CountTrue(vplComplete)
      ensures smapCache.State() == old(smapCache.State()).(pool := smapCache.handleOrder)
      ensures vplSmapCache.State() == old(vplSmapCache.State()).(pool := vplSmapCache.handleOrder)
      ensures old(smapCache.handleOrder) <= smapCache.handleOrder
      ensures old(vplSmapCache.handleOrder) <= vplSmapCache.handleOrder
      ensures currentShader == old(currentShader) && lightsToUpdate == old(lightsToUpdate)
      ensures dummyCubeMap == old(dummyCubeMap) && postFxBuffers == old(postFxBuffers)
    {
      AddShadowMaps(false, regularComplete);
      AddShadowMaps(true, vplComplete);
    }

    /** One loop of InitPointShadowMaps: a shadow map per verdict, into the pool vpl chooses. */
    method AddShadowMaps(vpl: bool, complete: seq<bool>)
      requires Valid()
      modifies this, smapCache, vplSmapCache
      ensures Valid()
      ensures smapCache == old(smapCache) && vplSmapCache == old(vplSmapCache)
      ensures isValid <==> old(isValid) && forall i :: 0 <= i < |complete| ==> complete[i]
      ensures var grown := if vpl then vplSmapCache else smapCache;
        && |grown.handleOrder| == |old(grown.handleOrder)| + CountTrue(complete)
        && old(grown.handleOrder) <= grown.handleOrder
        && grown.State() == old(grown.State()).(pool := grown.handleOrder)
      ensures var other := if vpl then smapCache else vplSmapCache;
        other.State() == old(other.State())
      ensures currentShader == old(currentShader) && lightsToUpdate == old(lightsToUpdate)
      ensures dummyCubeMap == old(dummyCubeMap) && postFxBuffers == old(postFxBuffers)
    {
      var grown := if vpl then vplSmapCache else smapCache;
      var other := if vpl then smapCache else vplSmapCache;
      ghost var grown0, other0 := grown.State(), other.State();
      for i := 0 to |complete|
        invariant Valid()
        invariant smapCache == old(smapCache) && vplSmapCache == old(vplSmapCache)
        invariant isValid <==> old(isValid) && forall j :: 0 <= j < i ==> complete[j]
        invariant |grown.handleOrder| == |grown0.pool| + CountTrue(complete[..i])
        invariant grown0.pool <= grown.handleOrder
        invariant grown.State() == grown0.(pool := grown.handleOrder)
        invariant other.State() == other0
        invariant currentShader == old(currentShader) && lightsToUpdate == old(lightsToUpdate)
        invariant dummyCubeMap == old(dummyCubeMap) && postFxBuffers == old(postFxBuffers)
      {
        assert complete[..i + 1] == complete[..i] + [complete[i]];
        var h := CreateShadowMap3D(vpl, complete[i]);
      }
      assert complete[..|complete|] == complete;
    }

    /** The backend is valid exactly when every shader compiled. */
    method ValidateAllShaders(shaderValid: seq<bool>)
      modifies this`isValid
      ensures isValid <==> forall i :: 0 <= i < |shaderValid| ==> shaderValid[i]
    {
      isValid := true;
      for i := 0 to |shaderValid|
        invariant isValid <==> forall j :: 0 <= j < i ==> shaderValid[j]
      {
        isValid := isValid && shaderValid[i];
      }
    }

    /** Recompiling gives each shader a new verdict, and validity is decided again from those alone. */
    method RecompileShaders(validAfter: seq<bool>)
      modifies this`isValid
      ensures isValid <==> forall i :: 0 <= i < |validAfter| ==> validAfter[i]
    {
      ValidateAllShaders(validAfter);
    }

    /** Binds s, unbinding whatever shader was bound before. */
    method BindShader(s: nat)
      requires Valid()
      modifies this`currentShader, this`shaderCalls
      ensures Valid()
      ensures currentShader == Some(s)
      ensures shaderCalls == old(shaderCalls)
                             + (if old(currentShader).Some? then [UnbindCall(old(currentShader).value)] else [])
                             + [BindCall(s)]
    {
      UnbindShader();
      WellNestedExtend(shaderCalls, BindCall(s));
      shaderCalls := shaderCalls + [BindCall(s)];
      currentShader := Some(s);
    }

    /** Unbinds the bound shader, if there is one. */
    method UnbindShader()
      requires Valid()
      modifies this`currentShader, this`shaderCalls
      ensures Valid()
      ensures currentShader.None?
      ensures shaderCalls == old(shaderCalls) + if old(currentShader).Some? then [UnbindCall(old(currentShader).value)] else []
    {
      if currentShader.None? {
        return;
      }
      WellNestedExtend(shaderCalls, UnbindCall(currentShader.value));
      shaderCalls := shaderCalls + [UnbindCall(currentShader.value)];
      currentShader := None;
    }

    // -------------------------------------------------------------------------
    // The two caches

    /** VPLs always use the VPL cache and every other light the regular one. */
    function GetSmapCacheForLight(l: Light): (c: ShadowMapCache)
      reads this`smapCache, this`vplSmapCache
      ensures l.isVirtual ==> c == vplSmapCache
      ensures !l.isVirtual ==> c == smapCache
    {
      if l.isVirtual then vplSmapCache else smapCache
    }

    /**
     * A new shadow map in the pool chosen by vpl: a depth cube map, for VPLs
     * also a diffuse cube map, and a framebuffer over them. complete is the
     * driver's verdict on that framebuffer; when it is incomplete the backend
     * becomes invalid and the null handle is returned.
     */
    method CreateShadowMap3D(vpl: bool, complete: bool) returns (h: Handle)
      requires Valid()
      modifies this, smapCache, vplSmapCache
      ensures Valid()
      ensures smapCache == old(smapCache) && vplSmapCache == old(vplSmapCache)
      ensures currentShader == old(currentShader) && lightsToUpdate == old(lightsToUpdate)
      ensures dummyCubeMap == old(dummyCubeMap) && postFxBuffers == old(postFxBuffers)
      ensures !complete ==> h == NULL_HANDLE && !isValid
                            && smapCache.State() == old(smapCache.State())
                            && vplSmapCache.State() == old(vplSmapCache.State())
      ensures complete ==> h == old(nextHandle) && isValid == old(isValid)
      ensures complete && vpl ==>
        && vplSmapCache.State() == old(vplSmapCache.State()).(pool := old(vplSmapCache.handleOrder) + [h])
        && h in vplSmapCache.shadowMap3DHandles
        && smapCache.State() == old(smapCache.State())
      ensures complete && !vpl ==>
        && smapCache.State() == old(smapCache.State()).(pool := old(smapCache.handleOrder) + [h])
        && h in smapCache.shadowMap3DHandles
        && vplSmapCache.State() == old(vplSmapCache.State())
    {
      var smap, made := BuildShadowMap(vpl, complete);
      if !made {
        isValid := false;
        return NULL_HANDLE;
      }
      h := nextHandle;
      nextHandle := nextHandle + 1;
      if vpl {
        vplSmapCache.Insert(h, smap);
      } else {
        smapCache.Insert(h, smap);
      }
    }

    /**
     * The textures and framebuffer of a new shadow map, and whether the
     * driver accepted the framebuffer.
     */
    method BuildShadowMap(vpl: bool, complete: bool) returns (smap: ShadowMap3D, made: bool)
      modifies this`nextGlName
      ensures made <==> complete
      ensures smap.shadowCubeMap.format == Depth
      ensures vpl <==> smap.diffuseCubeMap.Some?
      ensures vpl ==> smap.diffuseCubeMap.value.format == Rgb
    {
      var shadowCubeMap := Texture(nextGlName, Depth);
      var diffuseCubeMap: Option<Texture> := None;
      var attachments := [shadowCubeMap];
      if vpl {
        diffuseCubeMap := Some(Texture(nextGlName + 1, Rgb));
        attachments := [diffuseCubeMap.value, shadowCubeMap];
      }
      assert DepthCount(attachments) == 1;
      var result := NewFrameBuffer(attachments, complete, nextGlName + 2);
      nextGlName := nextGlName + 3;
      if result.Failure? {
        assert false;
        var none := new FrameBuffer.Empty();
        return ShadowMap3D(shadowCubeMap, diffuseCubeMap, none), false;
      }
      smap := ShadowMap3D(shadowCubeMap, diffuseCubeMap, result.value);
      made := result.value.IsValid();
    }

    /**
     * The depth cube map behind a handle: the regular pool is searched first,
     * then the VPL pool; the null handle and an unknown handle give no texture.
     */
    method LookupShadowmapTexture(h: Handle) returns (t: Option<Texture>)
      requires Valid()
      ensures h == NULL_HANDLE ==> t.None?
      ensures h in smapCache.shadowMap3DHandles ==> t == Some(smapCache.shadowMap3DHandles[h].shadowCubeMap)
      ensures h in vplSmapCache.shadowMap3DHandles ==> t == Some(vplSmapCache.shadowMap3DHandles[h].shadowCubeMap)
      ensures t.Some? <==> h in smapCache.shadowMap3DHandles || h in vplSmapCache.shadowMap3DHandles
    {
      if h == NULL_HANDLE {
        return None;
      }
      if h in smapCache.shadowMap3DHandles {
        return Some(smapCache.shadowMap3DHandles[h].shadowCubeMap);
      }
      if h in vplSmapCache.shadowMap3DHandles {
        return Some(vplSmapCache.shadowMap3DHandles[h].shadowCubeMap);
      }
      t := None;
    }

    method ShadowMapExistsForLight(l: Light) returns (b: bool)
      requires Valid()
      ensures b <==> Exists(GetSmapCacheForLight(l).State(), l)
    {
      var cache := GetSmapCacheForLight(l);
      b := cache.ShadowMapExistsForLight(l);
    }

    /** The handle for l from its own cache; the other cache is untouched. */
    method GetOrAllocateShadowMapHandleForLight(l: Light) returns (h: Handle)
      requires Valid() && |GetSmapCacheForLight(l).handleOrder| > 0
      modifies GetSmapCacheForLight(l)`lightsToShadowMap, GetSmapCacheForLight(l)`usedShadowMaps,
               GetSmapCacheForLight(l)`lruLightCache
      ensures Valid()
      ensures GetSmapCacheForLight(l).State() == GetOrAllocate(old(GetSmapCacheForLight(l).State()), l).0
      ensures h == GetOrAllocate(old(GetSmapCacheForLight(l).State()), l).1
      ensures h in GetSmapCacheForLight(l).shadowMap3DHandles
    {
      var cache := GetSmapCacheForLight(l);
      h := cache.GetOrAllocateShadowMapHandleForLight(l);
    }

    /** Frees l's shadow map in its own cache; the other cache is untouched. */
    method RemoveLightFromShadowMapCache(l: Light)
      requires Valid()
      modifies GetSmapCacheForLight(l)`lightsToShadowMap, GetSmapCacheForLight(l)`usedShadowMaps,
               GetSmapCacheForLight(l)`lruLightCache
      ensures Valid()
      ensures GetSmapCacheForLight(l).State() == Remove(old(GetSmapCacheForLight(l).State()), l)
    {
      var cache := GetSmapCacheForLight(l);
      cache.RemoveLightFromShadowMapCache(l);
    }

    /** The shadow map behind the handle GetOrAllocateShadowMapHandleForLight returns. */
    method GetOrAllocateShadowMapForLight(l: Light) returns (smap: ShadowMap3D)
      requires Valid() && |GetSmapCacheForLight(l).handleOrder| > 0
      modifies GetSmapCacheForLight(l)`lightsToShadowMap, GetSmapCacheForLight(l)`usedShadowMaps,
               GetSmapCacheForLight(l)`lruLightCache
      ensures Valid()
      ensures GetSmapCacheForLight(l).State() == GetOrAllocate(old(GetSmapCacheForLight(l).State()), l).0
      ensures smap == GetSmapCacheForLight(l).shadowMap3DHandles[GetOrAllocate(old(GetSmapCacheForLight(l).State()), l).1]
    {
      var cache := GetSmapCacheForLight(l);
      smap := cache.GetOrAllocateShadowMapForLight(l);
    }

    // -------------------------------------------------------------------------
    // Per-frame light scheduling

    /** The update queue a frame ends up with before draining: the old queue, then what it enqueues. */
    ghost function FrameQueue(lights: seq<LightDistance>, casts: set<Light>, maxCasters: nat, maxVpls: nat): seq<Light>
      reads this`lightsToUpdate, this`smapCache, this`vplSmapCache, smapCache, vplSmapCache
    {
      lightsToUpdate + Enqueued(Kept(ShadowCasters(lights, casts), maxCasters), Kept(Vpls(lights), maxVpls),
                                smapCache.State(), vplSmapCache.State())
    }

    /**
     * The point-light pass of a frame: the lights are split by kind, each list
     * is sorted nearest first and cut to its cap, the kept shadow casters and
     * VPLs without a shadow map are queued, and at most maxUpdates queued
     * lights are popped, those that cast shadows getting a shadow map.
     */
    method UpdatePointLights(lights: seq<LightDistance>, casts: set<Light>,
                             maxRegular: nat, maxCasters: nat, maxVpls: nat, maxUpdates: int)
      returns (perLight: seq<LightDistance>, perCaster: seq<LightDistance>, perVpl: seq<LightDistance>)
      requires Valid()
      requires Updated(FrameQueue(lights, casts, maxCasters, maxVpls), casts, maxUpdates, false) != []
               ==> |smapCache.handleOrder| > 0
      requires Updated(FrameQueue(lights, casts, maxCasters, maxVpls), casts, maxUpdates, true) != []
               ==> |vplSmapCache.handleOrder| > 0
      modifies this`lightsToUpdate,
               smapCache`lightsToShadowMap, smapCache`usedShadowMaps, smapCache`lruLightCache,
               vplSmapCache`lightsToShadowMap, vplSmapCache`usedShadowMaps, vplSmapCache`lruLightCache
      ensures Valid()
      ensures perLight == Kept(Regulars(lights), maxRegular)
      ensures perCaster == Kept(ShadowCasters(lights, casts), maxCasters)
      ensures perVpl == Kept(Vpls(lights), maxVpls)
      ensures var queue := old(FrameQueue(lights, casts, maxCasters, maxVpls));
        && lightsToUpdate == queue[DrainCount(maxUpdates, |queue|)..]
        && smapCache.State() == AllocateAll(old(smapCache.State()), Updated(queue, casts, maxUpdates, false))
        && vplSmapCache.State() == AllocateAll(old(vplSmapCache.State()), Updated(queue, casts, maxUpdates, true))
    {
      perLight, perCaster, perVpl := QueueFrameLights(lights, casts, maxRegular, maxCasters, maxVpls);
      var drained := DrainShadowUpdates(casts, maxUpdates);
    }

    /** The part of the point-light pass before the drain: classify, sort, cut and enqueue. */
    method QueueFrameLights(lights: seq<LightDistance>, casts: set<Light>,
                            maxRegular: nat, maxCasters: nat, maxVpls: nat)
      returns (perLight: seq<LightDistance>, perCaster: seq<LightDistance>, perVpl: seq<LightDistance>)
      requires Valid()
      modifies this`lightsToUpdate
      ensures perLight == Kept(Regulars(lights), maxRegular)
      ensures perCaster == Kept(ShadowCasters(lights, casts), maxCasters)
      ensures perVpl == Kept(Vpls(lights), maxVpls)
      ensures lightsToUpdate == old(FrameQueue(lights, casts, maxCasters, maxVpls))
    {
      perLight, perCaster, perVpl := ClassifyLights(lights, casts);
      perLight := SortAndCut(perLight, maxRegular);
      perCaster := SortAndCut(perCaster, maxCasters);
      perVpl := SortAndCut(perVpl, maxVpls);
      ghost var queue0, regular, vpl := lightsToUpdate, smapCache.State(), vplSmapCache.State();
      EnqueueMissing(perCaster);
      ghost var queue1 := lightsToUpdate;
      EnqueueMissing(perVpl);
      EnqueuedInTurn(queue0, queue1, lightsToUpdate, perCaster, perVpl, regular, vpl);
    }

    /** Appends to the update queue, in order, the lights of s whose cache holds no shadow map for them. */
    method EnqueueMissing(s: seq<LightDistance>)
      requires Valid()
      modifies this`lightsToUpdate
      ensures lightsToUpdate == old(lightsToUpdate) + Missing(s, smapCache.State(), vplSmapCache.State())
    {
      ghost var queue0 := lightsToUpdate;
      ghost var regular, vpl := smapCache.State(), vplSmapCache.State();
      for i := 0 to |s|
        invariant lightsToUpdate == queue0 + Missing(s[..i], regular, vpl)
      {
        var light := s[i].light;
        var present := ShadowMapExistsForLight(light);
        assert present == Exists(CacheFor(light, regular, vpl), light);
        assert Missing(s[..i + 1], regular, vpl)
            == Missing(s[..i], regular, vpl) + (if present then [] else [light]) by {
          assert s[..i + 1][..i] == s[..i];
        }
        if !present {
          lightsToUpdate := lightsToUpdate + [light];
        }
      }
      assert s[..|s|] == s;
    }

    /**
     * Pops at most maxUpdates lights off the update queue; each popped light
     * that casts shadows gets a shadow map from the cache of its kind, and
     * the others are skipped.
     */
    method DrainShadowUpdates(casts: set<Light>, maxUpdates: int) returns (shadowUpdates: nat)
      requires Valid()
      requires Updated(lightsToUpdate, casts, maxUpdates, false) != [] ==> |smapCache.handleOrder| > 0
      requires Updated(lightsToUpdate, casts, maxUpdates, true) != [] ==> |vplSmapCache.handleOrder| > 0
      modifies this`lightsToUpdate,
               smapCache`lightsToShadowMap, smapCache`usedShadowMaps, smapCache`lruLightCache,
               vplSmapCache`lightsToShadowMap, vplSmapCache`usedShadowMaps, vplSmapCache`lruLightCache
      ensures Valid()
      ensures shadowUpdates == DrainCount(maxUpdates, |old(lightsToUpdate)|)
      ensures lightsToUpdate == old(lightsToUpdate)[shadowUpdates..]
      ensures smapCache.State() == AllocateAll(old(smapCache.State()), Updated(old(lightsToUpdate), casts, maxUpdates, false))
      ensures vplSmapCache.State() == AllocateAll(old(vplSmapCache.State()), Updated(old(lightsToUpdate), casts, maxUpdates, true))
    {
      ghost var queue := lightsToUpdate;
      ghost var n := DrainCount(maxUpdates, |queue|);
      ghost var regular0, vpl0 := smapCache.State(), vplSmapCache.State();
      shadowUpdates := DrainLoop(regular0, vpl0, queue, n, casts, maxUpdates, 0);
    }

    /**
     * The drain loop from the point where shadowUpdates lights are popped: while
     * the cap is not reached and the queue is not empty, pop and serve one
     * light. Written tail-recursively, one call per turn of the loop.
     */
    method DrainLoop(ghost regular0: CacheState, ghost vpl0: CacheState, ghost queue: seq<Light>, ghost n: nat,
                     casts: set<Light>, maxUpdates: int, shadowUpdates: nat) returns (total: nat)
      requires Valid() && n == DrainCount(maxUpdates, |queue|) && shadowUpdates <= n
      requires Drained(regular0, vpl0, queue, shadowUpdates, n, casts, lightsToUpdate, smapCache.State(), vplSmapCache.State())
      modifies this`lightsToUpdate,
               smapCache`lightsToShadowMap, smapCache`usedShadowMaps, smapCache`lruLightCache,
               vplSmapCache`lightsToShadowMap, vplSmapCache`usedShadowMaps, vplSmapCache`lruLightCache
      ensures Valid() && total == n
      ensures Drained(regular0, vpl0, queue, n, n, casts, lightsToUpdate, smapCache.State(), vplSmapCache.State())
      decreases |queue| - shadowUpdates
    {
      if shadowUpdates < maxUpdates && |lightsToUpdate| > 0 {
        DrainOne(regular0, vpl0, queue, shadowUpdates, n, casts);
        total := DrainLoop(regular0, vpl0, queue, n, casts, maxUpdates, shadowUpdates + 1);
      } else {
        total := shadowUpdates;
      }
    }

    /** One turn of the drain loop: the light at position k of the frame's queue is popped and served. */
    method DrainOne(ghost regular0: CacheState, ghost vpl0: CacheState, ghost queue: seq<Light>, k: nat, ghost n: nat,
                    casts: set<Light>)
      requires Valid() && k < n && Drained(regular0, vpl0, queue, k, n, casts, lightsToUpdate, smapCache.State(), vplSmapCache.State())
      modifies this`lightsToUpdate,
               smapCache`lightsToShadowMap, smapCache`usedShadowMaps, smapCache`lruLightCache,
               vplSmapCache`lightsToShadowMap, vplSmapCache`usedShadowMaps, vplSmapCache`lruLightCache
      ensures Valid() && Drained(regular0, vpl0, queue, k + 1, n, casts, lightsToUpdate, smapCache.State(), vplSmapCache.State())
    {
      PoolServes(queue, casts, k + 1, n, false, |regular0.pool|);
      PoolServes(queue, casts, k + 1, n, true, |vpl0.pool|);
      var light := lightsToUpdate[0];
      lightsToUpdate := lightsToUpdate[1..];
      assert light == queue[k] && lightsToUpdate == queue[k + 1..];
      if light !in casts {
        return;
      }
      if light.isVirtual {
        ghost var before := Served(queue, k, casts, true);
        AllocateAllSnoc(vpl0, before, light);
        var smap := GetOrAllocateShadowMapForLight(light);
      } else {
        ghost var before := Served(queue, k, casts, false);
        AllocateAllSnoc(regular0, before, light);
        var smap := GetOrAllocateShadowMapForLight(light);
      }
    }

    // -------------------------------------------------------------------------
    // Screen-sized and post-processing framebuffers

    /** The post-processing buffers, their counters and the validity flag, as one value. */
    function PostFxState(): (b: Buffers)
      reads this`postFxBuffers, this`gaussianBuffers, this`numDownsampleIterations, this`numUpsampleIterations, this`isValid
      ensures b.postFx == postFxBuffers && b.gaussian == gaussianBuffers && b.valid == isValid
      ensures b.downsamples == numDownsampleIterations && b.upsamples == numUpsampleIterations
    {
      Buffers(postFxBuffers, gaussianBuffers, numDownsampleIterations, numUpsampleIterations, isValid)
    }

    /**
     * Regenerates the screen-sized framebuffers after a viewport change and
     * then the post-processing ones; a clean viewport changes nothing. The
     * first framebuffer the driver rejects clears isValid and ends the
     * regeneration. verdicts holds the driver's verdict on each framebuffer in
     * creation order: the SCREEN_BUFFERS screen-sized ones (geometry buffer,
     * lighting, SSAO, blurred SSAO, VPL global illumination, half-size
     * atmospherics) and then the post-processing plan.
     */
    method UpdateWindowDimensions(viewportDirty: bool, viewport: Size, verdicts: seq<bool>)
      requires |verdicts| >= SCREEN_BUFFERS + |Plan(viewport)|
      modifies this`postFxBuffers, this`gaussianBuffers, this`numDownsampleIterations, this`numUpsampleIterations, this`isValid
      ensures !viewportDirty ==> PostFxState() == old(PostFxState())
      ensures viewportDirty && FirstRejected(verdicts[..SCREEN_BUFFERS]) < SCREEN_BUFFERS ==>
                !isValid && postFxBuffers == [] && gaussianBuffers == []
                && numDownsampleIterations == old(numDownsampleIterations)
                && numUpsampleIterations == old(numUpsampleIterations)
      ensures viewportDirty && FirstRejected(verdicts[..SCREEN_BUFFERS]) == SCREEN_BUFFERS ==>
                var rest := verdicts[SCREEN_BUFFERS..];
                PostFxState() == Built(viewport, FirstRejected(rest[..|Plan(viewport)|]), old(isValid))
    {
      if !viewportDirty {
        return;
      }
      postFxBuffers, gaussianBuffers := [], [];
      var i := 0;
      while i < SCREEN_BUFFERS
        invariant i <= SCREEN_BUFFERS && forall j :: 0 <= j < i ==> verdicts[j]
        invariant isValid == old(isValid)
      {
        if !verdicts[i] {
          isValid := false;
          FirstRejectedAt(verdicts[..SCREEN_BUFFERS], i);
          return;
        }
        i := i + 1;
      }
      FirstRejectedAt(verdicts[..SCREEN_BUFFERS], SCREEN_BUFFERS);
      InitializePostFxBuffers(viewport, verdicts[SCREEN_BUFFERS..]);
    }

    /**
     * Builds the bloom chain (downsampling buffers, each with two blur
     * buffers, then upsampling buffers), the atmospheric buffer and the two
     * FXAA buffers, stopping at the first framebuffer the driver rejects.
     * verdicts holds the driver's verdict on each, in creation order; blur
     * buffers are not checked. The caller has just cleared the buffer lists.
     */
    method InitializePostFxBuffers(viewport: Size, verdicts: seq<bool>)
      requires postFxBuffers == [] && gaussianBuffers == []
      requires |verdicts| >= |Plan(viewport)|
      modifies this`postFxBuffers, this`gaussianBuffers, this`numDownsampleIterations, this`numUpsampleIterations, this`isValid
      ensures PostFxState() == Built(viewport, FirstRejected(verdicts[..|Plan(viewport)|]), old(isValid))
    {
      var b := BuildPostFx(viewport, verdicts, isValid);
      postFxBuffers, gaussianBuffers := b.postFx, b.gaussian;
      numDownsampleIterations, numUpsampleIterations := b.downsamples, b.upsamples;
      isValid := b.valid;
      assert PostFxState() == Buffers(b.postFx, b.gaussian, b.downsamples, b.upsamples, b.valid) == b;
    }

    // -------------------------------------------------------------------------
    // Light slots of the lighting pass

    /**
     * Assigns the lighting-pass slots for a frame's regular lights, nearest
     * first: slot 0 of the shadow maps shows the dummy cube map until a light
     * takes it, VPLs get no slot, and a shadow caster gets a shadow slot, and
     * with it a shadow map from the regular cache, while fewer than
     * maxShadowLights have one; a caster that finds none left gets no slot at
     * all. Returns the dummy map's texture, the lights given a slot, the lights
     * given a shadow slot and the texture bound in each shadow slot.
     */
    method InitLights(lights: seq<LightDistance>, casts: set<Light>, maxShadowLights: nat)
      returns (dummyTexture: Option<Texture>, lit: seq<Light>, shadowLit: seq<Light>, shadowTextures: seq<Option<Texture>>)
      requires Valid()
      requires ShadowSlots(lights, casts, maxShadowLights) != [] ==> |smapCache.handleOrder| > 0
      modifies smapCache`lightsToShadowMap, smapCache`usedShadowMaps, smapCache`lruLightCache
      ensures Valid()
      ensures dummyCubeMap == NULL_HANDLE ==> dummyTexture.None?
      ensures dummyCubeMap in smapCache.shadowMap3DHandles ==>
                dummyTexture == Some(smapCache.shadowMap3DHandles[dummyCubeMap].shadowCubeMap)
      ensures lit == LightSlots(lights, casts, maxShadowLights)
      ensures shadowLit == ShadowSlots(lights, casts, maxShadowLights)
      ensures smapCache.State() == AllocateAll(old(smapCache.State()), shadowLit)
      ensures SlotsBound(shadowLit, shadowTextures, smapCache.lightsToShadowMap, smapCache.shadowMap3DHandles)
    {
      dummyTexture := LookupShadowmapTexture(dummyCubeMap);
      ghost var c0 := smapCache.State();
      lit, shadowLit, shadowTextures := [], [], [];
      lit, shadowLit, shadowTextures := AssignSlots(c0, lights, casts, maxShadowLights, 0, lit, shadowLit, shadowTextures);
    }

    /**
     * The slot loop of InitLights from light i on, with lit, shadowLit and
     * shadowTextures filled for the lights before it. Written tail-recursively,
     * one call per turn of the loop.
     */
    method AssignSlots(ghost c0: CacheState, lights: seq<LightDistance>, casts: set<Light>, maxShadowLights: nat, i: nat,
                       lit0: seq<Light>, shadowLit0: seq<Light>, shadowTextures0: seq<Option<Texture>>)
      returns (lit: seq<Light>, shadowLit: seq<Light>, shadowTextures: seq<Option<Texture>>)
      requires Valid() && i <= |lights|
      requires SlotsSoFar(c0, lights, casts, maxShadowLights, i, lit0, shadowLit0, smapCache.State())
      requires SlotsBound(shadowLit0, shadowTextures0, smapCache.lightsToShadowMap, smapCache.shadowMap3DHandles)
      modifies smapCache`lightsToShadowMap, smapCache`usedShadowMaps, smapCache`lruLightCache
      ensures Valid()
      ensures SlotsSoFar(c0, lights, casts, maxShadowLights, |lights|, lit, shadowLit, smapCache.State())
      ensures SlotsBound(shadowLit, shadowTextures, smapCache.lightsToShadowMap, smapCache.shadowMap3DHandles)
      decreases |lights| - i
    {
      if i == |lights| {
        return lit0, shadowLit0, shadowTextures0;
      }
      lit, shadowLit, shadowTextures := AssignSlot(c0, lights, casts, maxShadowLights, i, lit0, shadowLit0, shadowTextures0);
      lit, shadowLit, shadowTextures := AssignSlots(c0, lights, casts, maxShadowLights, i + 1, lit, shadowLit, shadowTextures);
    }

    /** One turn of the slot loop: light i gets its slots, if any. */
    method AssignSlot(ghost c0: CacheState, lights: seq<LightDistance>, casts: set<Light>, maxShadowLights: nat, i: nat,
                      lit0: seq<Light>, shadowLit0: seq<Light>, shadowTextures0: seq<Option<Texture>>)
      returns (lit: seq<Light>, shadowLit: seq<Light>, shadowTextures: seq<Option<Texture>>)
      requires Valid() && i < |lights|
      requires SlotsSoFar(c0, lights, casts, maxShadowLights, i, lit0, shadowLit0, smapCache.State())
      requires SlotsBound(shadowLit0, shadowTextures0, smapCache.lightsToShadowMap, smapCache.shadowMap3DHandles)
      modifies smapCache`lightsToShadowMap, smapCache`usedShadowMaps, smapCache`lruLightCache
      ensures Valid()
      ensures SlotsSoFar(c0, lights, casts, maxShadowLights, i + 1, lit, shadowLit, smapCache.State())
      ensures SlotsBound(shadowLit, shadowTextures, smapCache.lightsToShadowMap, smapCache.shadowMap3DHandles)
    {
      lit, shadowLit, shadowTextures := lit0, shadowLit0, shadowTextures0;
      var light := lights[i].light;
      SlotsPrefixNext(lights, casts, maxShadowLights, i, lit, shadowLit);
      if light.isVirtual {
        return;
      }
      if light in casts {
        if |shadowLit| >= maxShadowLights {
          return;
        }
        AllocateAllSnoc(c0, shadowLit, light);
        shadowLit, shadowTextures := GrantShadowSlot(light, shadowLit, shadowTextures);
      }
      lit := lit + [light];
    }

    /** A caster with a shadow slot left: it takes the next slot, showing its own shadow map. */
    method GrantShadowSlot(light: Light, shadowLit0: seq<Light>, shadowTextures0: seq<Option<Texture>>)
      returns (shadowLit: seq<Light>, shadowTextures: seq<Option<Texture>>)
      requires Valid() && !light.isVirtual && |smapCache.handleOrder| > 0
      requires SlotsBound(shadowLit0, shadowTextures0, smapCache.lightsToShadowMap, smapCache.shadowMap3DHandles)
      modifies smapCache`lightsToShadowMap, smapCache`usedShadowMaps, smapCache`lruLightCache
      ensures Valid() && shadowLit == shadowLit0 + [light]
      ensures smapCache.State() == GetOrAllocate(old(smapCache.State()), light).0
      ensures SlotsBound(shadowLit, shadowTextures, smapCache.lightsToShadowMap, smapCache.shadowMap3DHandles)
    {
      SlotsBoundGrow(shadowLit0, shadowTextures0, smapCache.State(), light, smapCache.shadowMap3DHandles);
      var h := GetOrAllocateShadowMapHandleForLight(light);
      var t := LookupShadowmapTexture(h);
      shadowLit := shadowLit0 + [light];
      shadowTextures := shadowTextures0 + [t];
    }

    /** Frees the shadow map of the i-th removed light, in the cache of its kind. */
    method ClearLightData(ghost regular0: CacheState, ghost vpl0: CacheState, lightsToRemove: seq<Light>, i: nat)
      requires Valid() && i < |lightsToRemove|
      requires smapCache.State() == RemoveAll(regular0, OfKind(lightsToRemove[..i], false))
      requires vplSmapCache.State() == RemoveAll(vpl0, OfKind(lightsToRemove[..i], true))
      modifies smapCache`lightsToShadowMap, smapCache`usedShadowMaps, smapCache`lruLightCache,
               vplSmapCache`lightsToShadowMap, vplSmapCache`usedShadowMaps, vplSmapCache`lruLightCache
      ensures Valid()
      ensures smapCache.State() == RemoveAll(regular0, OfKind(lightsToRemove[..i + 1], false))
      ensures vplSmapCache.State() == RemoveAll(vpl0, OfKind(lightsToRemove[..i + 1], true))
    {
      var l := lightsToRemove[i];
      RemoveAllStep(regular0, lightsToRemove, i, false);
      RemoveAllStep(vpl0, lightsToRemove, i, true);
      RemoveLightFromShadowMapCache(l);
    }

    /** Every light the frame removed is passed to RemoveLightFromShadowMapCache, in order. */
    method ClearRemovedLightData(lightsToRemove: seq<Light>) returns (lightsCleared: nat)
      requires Valid()
      modifies smapCache`lightsToShadowMap, smapCache`usedShadowMaps, smapCache`lruLightCache,
               vplSmapCache`lightsToShadowMap, vplSmapCache`usedShadowMaps, vplSmapCache`lruLightCache
      ensures Valid()
      ensures lightsCleared == |lightsToRemove|
      ensures smapCache.State() == RemoveAll(old(smapCache.State()), OfKind(lightsToRemove, false))
      ensures vplSmapCache.State() == RemoveAll(old(vplSmapCache.State()), OfKind(lightsToRemove, true))
    {
      ghost var regular0, vpl0 := smapCache.State(), vplSmapCache.State();
      assert lightsToRemove[..0] == [];
      lightsCleared := 0;
      for i := 0 to |lightsToRemove|
        invariant Valid()
        invariant lightsCleared == i
        invariant smapCache.State() == RemoveAll(regular0, OfKind(lightsToRemove[..i], false))
        invariant vplSmapCache.State() == RemoveAll(vpl0, OfKind(lightsToRemove[..i], true))
      {
        ClearLightData(regular0, vpl0, lightsToRemove, i);
        lightsCleared := lightsCleared + 1;
      }
      assert lightsToRemove[..|lightsToRemove|] == lightsToRemove;
    }
  }

  /** Clearing one more removed light removes it from the cache of its kind only. */
  lemma RemoveAllStep(c: CacheState, ls: seq<Light>, i: nat, isVirtual: bool)
    requires i < |ls|
    ensures ls[i].isVirtual == isVirtual ==>
              RemoveAll(c, OfKind(ls[..i + 1], isVirtual)) == Remove(RemoveAll(c, OfKind(ls[..i], isVirtual)), ls[i])
    ensures ls[i].isVirtual != isVirtual ==>
              RemoveAll(c, OfKind(ls[..i + 1], isVirtual)) == RemoveAll(c, OfKind(ls[..i], isVirtual))
  {
    assert ls[..i + 1][..i] == ls[..i];
    var before := OfKind(ls[..i], isVirtual);
    if ls[i].isVirtual == isVirtual {
      assert (before + [ls[i]])[..|before|] == before;
    }
  }

  /** The number of true verdicts. */
  function CountTrue(bs: seq<bool>): (n: nat)
    ensures n <= |bs|
    ensures n == |bs| <==> forall i :: 0 <= i < |bs| ==> bs[i]
    decreases |bs|
  {
    if bs == [] then 0
    else
      var init := bs[..|bs| - 1];
      assert forall i :: 0 <= i < |init| ==> init[i] == bs[i];
      CountTrue(init) + if bs[|bs| - 1] then 1 else 0
  }

  /** A call that respects the binding discipline keeps the history well nested. */
  lemma WellNestedExtend(calls: seq<ShaderCall>, c: ShaderCall)
    requires WellNested(calls)
    requires c.BindCall? ==> BoundShader(calls).None?
    requires c.UnbindCall? ==> BoundShader(calls) == Some(c.shader)
    ensures WellNested(calls + [c])
  {
    var ext := calls + [c];
    forall i | 0 <= i < |ext|
      ensures match ext[i]
              case BindCall(_) => BoundShader(ext[..i]).None?
              case UnbindCall(s) => BoundShader(ext[..i]) == Some(s)
    {
      assert ext[..i] == calls[..i] || i == |calls|;
      if i == |calls| {
        assert ext[..i] == calls;
      } else {
        assert ext[..i] == calls[..i];
        assert ext[i] == calls[i];
      }
    }
  }

  /** The lights of one kind among the first k of the queue that cast shadows, in order: those the drain serves. */
  function Served(queue: seq<Light>, k: nat, casts: set<Light>, isVirtual: bool): (r: seq<Light>)
    requires k <= |queue|
    ensures |r| <= k
    decreases k
  {
    if k == 0 then []
    else
      var prev := Served(queue, k - 1, casts, isVirtual);
      var l := queue[k - 1];
      if l in casts && l.isVirtual == isVirtual then prev + [l] else prev
  }

  /** The served lights are exactly the popped lights of the kind that cast shadows. */
  lemma {:induction false} ServedMembers(queue: seq<Light>, k: nat, casts: set<Light>, isVirtual: bool)
    requires k <= |queue|
    ensures forall l :: l in Served(queue, k, casts, isVirtual) <==> l in queue[..k] && l in casts && l.isVirtual == isVirtual
    decreases k
  {
    if k > 0 {
      ServedMembers(queue, k - 1, casts, isVirtual);
      assert queue[..k] == queue[..k - 1] + [queue[k - 1]];
    }
  }

  /** The lights whose shadow maps a frame updates, of one kind: those served from the popped prefix. */
  function Updated(queue: seq<Light>, casts: set<Light>, maxUpdates: int, isVirtual: bool): (r: seq<Light>)
    ensures |r| <= DrainCount(maxUpdates, |queue|)
    ensures forall l :: l in r <==> l in queue[..DrainCount(maxUpdates, |queue|)] && l in casts && l.isVirtual == isVirtual
  {
    ServedMembers(queue, DrainCount(maxUpdates, |queue|), casts, isVirtual);
    Served(queue, DrainCount(maxUpdates, |queue|), casts, isVirtual)
  }

  /**
   * The first k lights of queue are popped, leaving rest, and each cache
   * state is what serving the casters among them from its start state gives;
   * the pools are non-empty wherever the first n lights need them.
   */
  ghost predicate Drained(regular0: CacheState, vpl0: CacheState, queue: seq<Light>, k: nat, n: nat,
                          casts: set<Light>, rest: seq<Light>, regular: CacheState, vpl: CacheState)
  {
    && k <= n <= |queue| && Inv(regular0) && Inv(vpl0)
    && rest == queue[k..]
    && (Served(queue, n, casts, false) != [] ==> |regular0.pool| > 0)
    && (Served(queue, n, casts, true) != [] ==> |vpl0.pool| > 0)
    && (Served(queue, k, casts, false) != [] ==> |regular0.pool| > 0)
    && (Served(queue, k, casts, true) != [] ==> |vpl0.pool| > 0)
    && regular == AllocateAll(regular0, Served(queue, k, casts, false))
    && vpl == AllocateAll(vpl0, Served(queue, k, casts, true))
  }

  /** What a shorter prefix serves begins what a longer one serves. */
  lemma {:induction false} ServedGrows(queue: seq<Light>, casts: set<Light>, j: nat, k: nat, isVirtual: bool)
    requires j <= k <= |queue|
    ensures Served(queue, j, casts, isVirtual) <= Served(queue, k, casts, isVirtual)
    decreases k - j
  {
    if j < k {
      ServedGrows(queue, casts, j, k - 1, isVirtual);
    }
  }

  /** A pool that serves the whole drained prefix serves every shorter one. */
  lemma PoolServes(queue: seq<Light>, casts: set<Light>, j: nat, k: nat, isVirtual: bool, poolSize: nat)
    requires j <= k <= |queue|
    requires Served(queue, k, casts, isVirtual) != [] ==> poolSize > 0
    ensures Served(queue, j, casts, isVirtual) != [] ==> poolSize > 0
  {
    ServedGrows(queue, casts, j, k, isVirtual);
  }

  /**
   * The slot loop has visited the first i lights: lit and shadowLit followed
   * by the slots the rest of the list gets make up all the slots, and the
   * regular cache holds what requesting each shadow slot's light gives.
   */
  ghost predicate SlotsSoFar(c0: CacheState, lights: seq<LightDistance>, casts: set<Light>, maxShadowLights: nat, i: nat,
                             lit: seq<Light>, shadowLit: seq<Light>, state: CacheState)
  {
    && SlotsPrefix(lights, casts, maxShadowLights, i, lit, shadowLit)
    && Inv(c0)
    && (ShadowSlots(lights, casts, maxShadowLights) != [] ==> |c0.pool| > 0)
    && state == AllocateAll(c0, shadowLit)
  }

  /** lit and shadowLit are the slots of the first i lights. */
  ghost predicate SlotsPrefix(lights: seq<LightDistance>, casts: set<Light>, maxShadowLights: nat, i: nat,
                              lit: seq<Light>, shadowLit: seq<Light>)
  {
    && i <= |lights| && |shadowLit| <= maxShadowLights
    && lit + LightSlots(lights[i..], casts, maxShadowLights - |shadowLit|) == LightSlots(lights, casts, maxShadowLights)
    && shadowLit + ShadowSlots(lights[i..], casts, maxShadowLights - |shadowLit|) == ShadowSlots(lights, casts, maxShadowLights)
  }

  /** Shadow slot j shows the depth cube map behind the handle its light is mapped to. */
  ghost predicate SlotsBound(shadowLit: seq<Light>, shadowTextures: seq<Option<Texture>>,
                             lightsToShadowMap: map<Light, Handle>, handles: map<Handle, ShadowMap3D>)
  {
    && |shadowTextures| == |shadowLit|
    && forall j :: 0 <= j < |shadowLit| ==>
         && shadowLit[j] in lightsToShadowMap
         && lightsToShadowMap[shadowLit[j]] in handles
         && shadowTextures[j] == Some(handles[lightsToShadowMap[shadowLit[j]]].shadowCubeMap)
  }

  /** The slots of the list from light i on, in terms of those from light i + 1 on. */
  lemma SlotsStep(lights: seq<LightDistance>, casts: set<Light>, i: nat, room: nat)
    requires i < |lights|
    ensures var l := lights[i].light;
      LightSlots(lights[i..], casts, room) ==
        if l.isVirtual || (l in casts && room == 0) then LightSlots(lights[i + 1..], casts, room)
        else if l in casts then [l] + LightSlots(lights[i + 1..], casts, room - 1)
        else [l] + LightSlots(lights[i + 1..], casts, room)
    ensures var l := lights[i].light;
      ShadowSlots(lights[i..], casts, room) ==
        if !l.isVirtual && l in casts && room > 0 then [l] + ShadowSlots(lights[i + 1..], casts, room - 1)
        else ShadowSlots(lights[i + 1..], casts, room)
  {
    assert lights[i..][0] == lights[i] && lights[i..][1..] == lights[i + 1..];
  }

  /** One turn of the slot loop keeps SlotsPrefix, whichever slots light i gets. */
  lemma SlotsPrefixNext(lights: seq<LightDistance>, casts: set<Light>, maxShadowLights: nat, i: nat,
                        lit: seq<Light>, shadowLit: seq<Light>)
    requires i < |lights| && SlotsPrefix(lights, casts, maxShadowLights, i, lit, shadowLit)
    ensures var l := lights[i].light;
      var granted := !l.isVirtual && l in casts && |shadowLit| < maxShadowLights;
      var slotted := !l.isVirtual && (l !in casts || |shadowLit| < maxShadowLights);
      && (granted ==> ShadowSlots(lights, casts, maxShadowLights) != [])
      && SlotsPrefix(lights, casts, maxShadowLights, i + 1, if slotted then lit + [l] else lit,
                     if granted then shadowLit + [l] else shadowLit)
  {
    var l := lights[i].light;
    if !l.isVirtual && l in casts && |shadowLit| < maxShadowLights {
      SlotsPrefixGranted(lights, casts, maxShadowLights, i, lit, shadowLit);
    } else if !l.isVirtual && l !in casts {
      SlotsPrefixLitOnly(lights, casts, maxShadowLights, i, lit, shadowLit);
    } else {
      SlotsStep(lights, casts, i, maxShadowLights - |shadowLit|);
    }
  }

  /** Light i casts shadows and a shadow slot is free: it takes a light slot and a shadow slot. */
  lemma SlotsPrefixGranted(lights: seq<LightDistance>, casts: set<Light>, maxShadowLights: nat, i: nat,
                           lit: seq<Light>, shadowLit: seq<Light>)
    requires i < |lights| && SlotsPrefix(lights, casts, maxShadowLights, i, lit, shadowLit)
    requires !lights[i].light.isVirtual && lights[i].light in casts && |shadowLit| < maxShadowLights
    ensures ShadowSlots(lights, casts, maxShadowLights) != []
    ensures SlotsPrefix(lights, casts, maxShadowLights, i + 1, lit + [lights[i].light], shadowLit + [lights[i].light])
  {
    var l, room := lights[i].light, maxShadowLights - |shadowLit|;
    var wholeL, wholeS := LightSlots(lights, casts, maxShadowLights), ShadowSlots(lights, casts, maxShadowLights);
    var restL, restS := LightSlots(lights[i + 1..], casts, room - 1), ShadowSlots(lights[i + 1..], casts, room - 1);
    assert LightSlots(lights[i..], casts, room) == [l] + restL
        && ShadowSlots(lights[i..], casts, room) == [l] + restS by { SlotsStep(lights, casts, i, room); }
    assert lit + ([l] + restL) == wholeL;
    assert shadowLit + ([l] + restS) == wholeS;
    MoveIntoPrefix(lit, [l], restL, wholeL);
    MoveIntoPrefix(shadowLit, [l], restS, wholeS);
    assert maxShadowLights - |shadowLit + [l]| == room - 1;
  }

  /** Light i casts no shadows: it takes a light slot only. */
  lemma SlotsPrefixLitOnly(lights: seq<LightDistance>, casts: set<Light>, maxShadowLights: nat, i: nat,
                           lit: seq<Light>, shadowLit: seq<Light>)
    requires i < |lights| && SlotsPrefix(lights, casts, maxShadowLights, i, lit, shadowLit)
    requires !lights[i].light.isVirtual && lights[i].light !in casts
    ensures SlotsPrefix(lights, casts, maxShadowLights, i + 1, lit + [lights[i].light], shadowLit)
  {
    var l, room := lights[i].light, maxShadowLights - |shadowLit|;
    var wholeL := LightSlots(lights, casts, maxShadowLights);
    var restL := LightSlots(lights[i + 1..], casts, room);
    assert LightSlots(lights[i..], casts, room) == [l] + restL
        && ShadowSlots(lights[i..], casts, room) == ShadowSlots(lights[i + 1..], casts, room) by { SlotsStep(lights, casts, i, room); }
    assert lit + ([l] + restL) == wholeL;
    MoveIntoPrefix(lit, [l], restL, wholeL);
  }

  /** Moving the front of the remainder onto the prefix leaves the whole unchanged. */
  lemma MoveIntoPrefix<T>(prefix: seq<T>, x: seq<T>, rest: seq<T>, whole: seq<T>)
    requires prefix + (x + rest) == whole
    ensures (prefix + x) + rest == whole
  {
    assert prefix + (x + rest) == (prefix + x) + rest;
  }

  /** Requesting one more light keeps every earlier shadow slot bound, and binds the new one. */
  lemma SlotsBoundGrow(shadowLit: seq<Light>, shadowTextures: seq<Option<Texture>>, c: CacheState, l: Light,
                       handles: map<Handle, ShadowMap3D>)
    requires Inv(c) && |c.pool| > 0 && (forall h :: h in c.pool ==> h in handles)
    requires SlotsBound(shadowLit, shadowTextures, c.lightsToShadowMap, handles)
    ensures var r := GetOrAllocate(c, l);
      SlotsBound(shadowLit + [l], shadowTextures + [Some(handles[r.1].shadowCubeMap)], r.0.lightsToShadowMap, handles)
  {
    var r := GetOrAllocate(c, l);
    forall j | 0 <= j < |shadowLit|
      ensures shadowLit[j] in r.0.lightsToShadowMap && r.0.lightsToShadowMap[shadowLit[j]] == c.lightsToShadowMap[shadowLit[j]]
    {
      GetOrAllocateKeepsEntries(c, l, shadowLit[j]);
    }
  }

  /** Queueing the missing casters and then the missing VPLs queues what Enqueued says. */
  lemma EnqueuedInTurn(q0: seq<Light>, q1: seq<Light>, q2: seq<Light>,
                       casters: seq<LightDistance>, vpls: seq<LightDistance>, regular: CacheState, vpl: CacheState)
    requires q1 == q0 + Missing(casters, regular, vpl)
    requires q2 == q1 + Missing(vpls, regular, vpl)
    ensures q2 == q0 + Enqueued(casters, vpls, regular, vpl)
  {
    var a, b := Missing(casters, regular, vpl), Missing(vpls, regular, vpl);
    assert (q0 + a) + b == q0 + (a + b);
  }

  /** Sorts s nearest first and keeps at most cap lights. */
  method SortAndCut(s: seq<LightDistance>, cap: nat) returns (r: seq<LightDistance>)
    ensures r == Kept(s, cap)
  {
    r := SortByDistance(s);
    r := Truncate(r, cap);
  }

  /** Splits a frame's lights into the regular, shadow-casting and VPL lists, keeping their order. */
  method ClassifyLights(lights: seq<LightDistance>, casts: set<Light>)
    returns (perLight: seq<LightDistance>, perCaster: seq<LightDistance>, perVpl: seq<LightDistance>)
    ensures perLight == Regulars(lights)
    ensures perCaster == ShadowCasters(lights, casts)
    ensures perVpl == Vpls(lights)
  {
    perLight, perCaster, perVpl := [], [], [];
    for i := 0 to |lights|
      invariant perLight == Regulars(lights[..i])
      invariant perCaster == ShadowCasters(lights[..i], casts)
      invariant perVpl == Vpls(lights[..i])
    {
      assert lights[..i + 1][..i] == lights[..i];
      var light := lights[i];
      if light.light.isVirtual {
        perVpl := perVpl + [light];
      } else {
        perLight := perLight + [light];
      }
      if !light.light.isVirtual && light.light in casts {
        perCaster := perCaster + [light];
      }
    }
    assert lights[..|lights|] == lights;
  }
}
