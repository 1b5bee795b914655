/**
 * The older renderer's state, updated in place: its single shadow-map
 * cache (the same ShadowMapCache the newer backend keeps per light kind),
 * the per-light and per-entity motion records that decide which shadows
 * are re-rendered, the texture handle cache, the window and perspective
 * settings and the bloom buffers. Every method is proved against the
 * functions of LegacySpec and LruSpec.
 *
 * OpenGL is not modelled: whether a framebuffer is complete, what reading
 * an image file gives and the distances behind the shadow pass's radius
 * test are parameters.
 */
module LegacyRenderer {
  import opened Wrappers
  import opened LruSpec
  import opened FrameBuffers
  import opened ShadowMapCaches
  import opened Scheduling
  import opened PostFx
  import opened LegacySpec

  /** The renderer's window sizes are C ints. */
  newtype Int32 = x: int | -0x8000_0000 <= x < 0x8000_0000

  /** A field of view below this is ignored. */
  const MIN_FOV: real := 25.0

  /** The window size at which _setWindowDimensions does nothing: the same size, or a negative side. */
  predicate WindowUnchanged(currentWidth: Int32, currentHeight: Int32, w: Int32, h: Int32) {
    (currentWidth == w && currentHeight == h) || w < 0 || h < 0
  }

  class Renderer {
    var smapCache: ShadowMapCache
    var dummyCubeMap: Handle                               // bound to shadow slot 0 when no light has one
    var lights: seq<Light>                                 // the frame's lights, in the order they were added
    var lightsSeenBefore: map<Light, EntityStateInfo>
    var entities: map<LightProperties, seq<Entity>>                   // the frame's entities, by light properties
    var lightInteractingEntities: seq<Entity>
    var entitiesSeenBefore: map<Entity, EntityStateInfo>
    var textures: map<string, TextureCache>
    var textureHandles: map<Handle, TextureCache>
    var nextTextureHandle: Handle                          // shared by textures and shadow maps
    var nextGlName: nat                                    // the next name the driver gives a texture or framebuffer
    var isValid: bool
    var windowWidth: Int32
    var windowHeight: Int32
    var fov: real
    var znear: real
    var zfar: real
    var postFxBuffers: seq<Size>
    var numDownsampleIterations: nat
    var numUpsampleIterations: nat

    /** The texture cache as a LegacySpec value. */
    function Store(): (s: TextureStore)
      reads this`textures, this`textureHandles, this`nextTextureHandle
      ensures s.textures == textures && s.textureHandles == textureHandles && s.nextTextureHandle == nextTextureHandle
    {
      TextureStore(textures, textureHandles, nextTextureHandle)
    }

    /** The depth cube map behind each shadow-map handle. */
    function CubeMaps(): (m: map<Handle, Texture>)
      reads this`smapCache, smapCache`shadowMap3DHandles
      ensures m.Keys == smapCache.shadowMap3DHandles.Keys
      ensures forall h :: h in m ==> m[h] == smapCache.shadowMap3DHandles[h].shadowCubeMap
    {
      map h | h in smapCache.shadowMap3DHandles :: smapCache.shadowMap3DHandles[h].shadowCubeMap
    }

    ghost predicate Valid()
      reads this`smapCache, smapCache, this`textures, this`textureHandles, this`nextTextureHandle, this`dummyCubeMap,
            this`lights, this`lightsSeenBefore, this`lightInteractingEntities, this`entitiesSeenBefore
    {
      && smapCache.Valid()
      && StoreInv(Store())
      && (forall h :: h in smapCache.shadowMap3DHandles ==> INVALID_HANDLE < h < nextTextureHandle)
      && (forall h :: h in smapCache.shadowMap3DHandles ==> h !in textureHandles)
      && (dummyCubeMap == INVALID_HANDLE || dummyCubeMap in smapCache.shadowMap3DHandles)
      && (forall l :: l in lights ==> l in lightsSeenBefore)
      && (forall e :: e in lightInteractingEntities ==> e in entitiesSeenBefore)
    }

    /**
     * The renderer for a window: invalid if no OpenGL context could be
     * created or a shader failed to build; otherwise with the dummy cube map
     * and numShadowMaps shadow maps in its pool, the i-th framebuffer
     * (the dummy's first) accepted as Accepts(smapVerdicts, i) says.
     * The initial handle, perspective and window size are member
     * initialisers declared in a header, so they are parameters here.
     */
    constructor (contextCreated: bool, shadersValid: bool, firstHandle: nat, numShadowMaps: nat,
                 smapVerdicts: seq<bool>, fov0: real, znear0: real, zfar0: real)
      ensures Valid()
      ensures lights == [] && lightsSeenBefore == map[] && entitiesSeenBefore == map[]
      ensures textures == map[] && textureHandles == map[]
      ensures nextTextureHandle == firstHandle + |smapCache.handleOrder|
      ensures smapCache.State() == EmptyCache(smapCache.handleOrder)
      ensures !contextCreated ==> !isValid && smapCache.handleOrder == []
      ensures contextCreated ==>
                && entities == map[FLAT := [], DYNAMIC := []]
                && (isValid <==> shadersValid && AcceptedCount(smapVerdicts, numShadowMaps + 1) == numShadowMaps + 1)
                && |smapCache.handleOrder| == AcceptedCount(smapVerdicts, numShadowMaps + 1)
                && (Accepts(smapVerdicts, 0) <==> dummyCubeMap != INVALID_HANDLE)
    {
      smapCache := new ShadowMapCache();
      dummyCubeMap := INVALID_HANDLE;
      lights, lightsSeenBefore := [], map[];
      entities, lightInteractingEntities, entitiesSeenBefore := map[], [], map[];
      textures, textureHandles, nextTextureHandle := map[], map[], firstHandle;
      nextGlName := 1;
      isValid := false;
      windowWidth, windowHeight := 0, 0;
      fov, znear, zfar := fov0, znear0, zfar0;
      postFxBuffers, numDownsampleIterations, numUpsampleIterations := [], 0, 0;
      new;
      if !contextCreated {
        return;
      }
      SetUp(shadersValid, numShadowMaps, smapVerdicts);
    }

    /** The constructor once the context exists: the entity lists, the dummy cube map, then the pool. */
    method SetUp(shadersValid: bool, numShadowMaps: nat, smapVerdicts: seq<bool>)
      requires Valid() && smapCache.handleOrder == []
      modifies this`isValid, this`entities, this`dummyCubeMap, this`nextTextureHandle, this`nextGlName,
               smapCache`shadowMap3DHandles, smapCache`handleOrder
      ensures Valid()
      ensures nextTextureHandle == old(nextTextureHandle) + |smapCache.handleOrder|
      ensures smapCache.State() == old(smapCache.State()).(pool := smapCache.handleOrder)
      ensures entities == map[FLAT := [], DYNAMIC := []]
      ensures isValid <==> shadersValid && AcceptedCount(smapVerdicts, numShadowMaps + 1) == numShadowMaps + 1
      ensures |smapCache.handleOrder| == AcceptedCount(smapVerdicts, numShadowMaps + 1)
      ensures Accepts(smapVerdicts, 0) <==> dummyCubeMap != INVALID_HANDLE
    {
      isValid := shadersValid;
      entities := map[FLAT := [], DYNAMIC := []];
      dummyCubeMap := CreateShadowMap3D(Accepts(smapVerdicts, 0));
      CreateShadowMaps(smapVerdicts, numShadowMaps);
    }

    /** The constructor's loop: count shadow maps after the dummy, the i-th accepted as Accepts(verdicts, i) says. */
    method CreateShadowMaps(verdicts: seq<bool>, count: nat)
      requires Valid() && (isValid ==> Accepts(verdicts, 0))
      requires |smapCache.handleOrder| == AcceptedCount(verdicts, 1)
      modifies this`nextTextureHandle, this`nextGlName, this`isValid, smapCache`shadowMap3DHandles, smapCache`handleOrder
      ensures Valid()
      ensures nextTextureHandle == old(nextTextureHandle) + |smapCache.handleOrder| - |old(smapCache.handleOrder)|
      ensures smapCache.State() == old(smapCache.State()).(pool := smapCache.handleOrder)
      ensures |smapCache.handleOrder| == AcceptedCount(verdicts, count + 1)
      ensures isValid <==> old(isValid) && AcceptedCount(verdicts, count + 1) == count + 1
    {
      var i := 0;
      while i < count
        invariant 0 <= i <= count
        invariant Valid()
        invariant nextTextureHandle == old(nextTextureHandle) + |smapCache.handleOrder| - |old(smapCache.handleOrder)|
        invariant smapCache.State() == old(smapCache.State()).(pool := smapCache.handleOrder)
        invariant |smapCache.handleOrder| == AcceptedCount(verdicts, i + 1)
        invariant isValid <==> old(isValid) && AcceptedCount(verdicts, i + 1) == i + 1
      {
        var h := CreateShadowMap3D(Accepts(verdicts, i + 1));
        i := i + 1;
      }
    }

    /**
     * A new depth cube map and its framebuffer under the next handle; if the
     * driver rejects the framebuffer the renderer becomes invalid, no handle
     * is used up and INVALID_HANDLE is returned.
     */
    method CreateShadowMap3D(complete: bool) returns (h: Handle)
      requires Valid()
      modifies this`nextTextureHandle, this`nextGlName, this`isValid,
               smapCache`shadowMap3DHandles, smapCache`handleOrder
      ensures Valid()
      ensures !complete ==> h == INVALID_HANDLE && !isValid && nextTextureHandle == old(nextTextureHandle)
                            && smapCache.handleOrder == old(smapCache.handleOrder)
                            && smapCache.shadowMap3DHandles == old(smapCache.shadowMap3DHandles)
      ensures complete ==> h == old(nextTextureHandle) && nextTextureHandle == h + 1 && isValid == old(isValid)
                           && smapCache.handleOrder == old(smapCache.handleOrder) + [h]
                           && h in smapCache.shadowMap3DHandles
      ensures smapCache.State() == old(smapCache.State()).(pool := smapCache.handleOrder)
    {
      var cube := Texture(nextGlName, Depth);
      assert DepthCount([cube]) == 1;
      var fb := NewFrameBuffer([cube], complete, nextGlName + 1);
      nextGlName := nextGlName + 2;
      if fb.Failure? {
        assert false;
        return INVALID_HANDLE;
      }
      if !fb.value.IsValid() {
        isValid := false;
        return INVALID_HANDLE;
      }
      h := nextTextureHandle;
      nextTextureHandle := nextTextureHandle + 1;
      smapCache.Insert(h, ShadowMap3D(cube, None, fb.value));
    }

    // -------------------------------------------------------------------------
    // Shadow-map cache

    /**
     * The handle of l's shadow map, as ShadowMapCache hands it out; a light
     * that had none is marked dirty, since its new map must be rendered.
     */
    method GetShadowMapHandleForLight(l: Light) returns (h: Handle)
      requires Valid() && |smapCache.handleOrder| > 0 && l in lightsSeenBefore
      modifies this`lightsSeenBefore, smapCache`lightsToShadowMap, smapCache`usedShadowMaps, smapCache`lruLightCache
      ensures Valid()
      ensures smapCache.State() == GetOrAllocate(old(smapCache.State()), l).0
      ensures h == GetOrAllocate(old(smapCache.State()), l).1 && h in smapCache.shadowMap3DHandles
      ensures lightsSeenBefore ==
                if l in old(smapCache.lightsToShadowMap) then old(lightsSeenBefore)
                else old(lightsSeenBefore)[l := old(lightsSeenBefore)[l].(dirty := true)]
    {
      if l !in smapCache.lightsToShadowMap {
        lightsSeenBefore := lightsSeenBefore[l := lightsSeenBefore[l].(dirty := true)];
      }
      h := smapCache.GetOrAllocateShadowMapHandleForLight(l);
    }

    // -------------------------------------------------------------------------
    // Motion tracking

    /** Adds a point or spot light at pos to the frame and updates its motion record. */
    method AddPointLight(light: Light, pos: Vec3)
      requires Valid()
      modifies this`lights, this`lightsSeenBefore
      ensures Valid()
      ensures lights == old(lights) + [light]
      ensures lightsSeenBefore ==
                old(lightsSeenBefore)[light := NoteLight(if light in old(lightsSeenBefore) then Some(old(lightsSeenBefore)[light]) else None,
                                                         light in smapCache.lightsToShadowMap, pos)]
    {
      lights := lights + [light];
      if light !in lightsSeenBefore {
        lightsSeenBefore := lightsSeenBefore[light := EntityStateInfo(pos, ORIGIN, ORIGIN, true)];
      } else {
        var info := lightsSeenBefore[light];
        if light !in smapCache.lightsToShadowMap {
          info := info.(dirty := true);
        }
        if MovedFrom(pos, info.lastPos) {
          info := info.(lastPos := pos, dirty := true);
        }
        lightsSeenBefore := lightsSeenBefore[light := info];
      }
    }

    /** The entity lists and motion records as a LegacySpec value. */
    function Lists(): (f: DrawLists)
      reads this`entities, this`lightInteractingEntities, this`entitiesSeenBefore
      ensures f.entities == entities && f.interacting == lightInteractingEntities && f.seen == entitiesSeenBefore
    {
      DrawLists(entities, lightInteractingEntities, entitiesSeenBefore)
    }

    /**
     * The body of _addDrawable for one node, children aside: nothing happens
     * if there is no list for its light properties; otherwise it is appended
     * there, to the light-interacting entities if it is dynamic, and its
     * motion record is updated. The model matrix is not modelled.
     */
    method AddDrawableNode(d: Drawable)
      requires Valid()
      modifies this`entities, this`lightInteractingEntities, this`entitiesSeenBefore
      ensures Valid()
      ensures d.properties !in old(entities) ==>
                && entities == old(entities) && lightInteractingEntities == old(lightInteractingEntities)
                && entitiesSeenBefore == old(entitiesSeenBefore)
      ensures d.properties in old(entities) ==>
                && entities == old(entities)[d.properties := old(entities)[d.properties] + [d.entity]]
                && lightInteractingEntities == old(lightInteractingEntities) + (if HasFlag(d.properties, DYNAMIC) then [d.entity] else [])
                && entitiesSeenBefore ==
                     old(entitiesSeenBefore)[d.entity := NoteEntity(if d.entity in old(entitiesSeenBefore) then Some(old(entitiesSeenBefore)[d.entity]) else None,
                                                                    d.pos, d.scale, d.rotation)]
    {
      var e := d.entity;
      if d.properties !in entities {
        return;
      }
      entities := entities[d.properties := entities[d.properties] + [e]];
      if HasFlag(d.properties, DYNAMIC) {
        lightInteractingEntities := lightInteractingEntities + [e];
      }
      if e !in entitiesSeenBefore {
        entitiesSeenBefore := entitiesSeenBefore[e := EntityStateInfo(d.pos, d.scale, d.rotation, true)];
      } else {
        var info := UpdateMotion(entitiesSeenBefore[e], d.pos, d.scale, d.rotation);
        entitiesSeenBefore := entitiesSeenBefore[e := info];
      }
    }

    /** The motion record of an entity seen before, updated in place by _addDrawable. */
    static method UpdateMotion(info0: EntityStateInfo, pos: Vec3, scale: Vec3, rotation: Vec3) returns (info: EntityStateInfo)
      ensures info == NoteEntity(Some(info0), pos, scale, rotation)
    {
      info := info0.(dirty := false);
      if MovedFrom(pos, info.lastPos) {
        info := info.(lastPos := pos, dirty := true);
      }
      if MovedFrom(scale, info.lastScale) {
        info := info.(lastScale := scale, dirty := true);
      }
      if MovedFrom(rotation, info.lastRotation) {
        info := info.(lastRotation := rotation, dirty := true);
      }
    }

    /**
     * addDrawable / _addDrawable: the node, then each of its child nodes in
     * turn, recursively; a node whose light properties have no list is
     * skipped together with its children (AddedLists says what that leaves).
     */
    method AddDrawable(d: Drawable)
      requires Valid()
      modifies this`entities, this`lightInteractingEntities, this`entitiesSeenBefore
      ensures Valid()
      ensures Lists() == Added(old(Lists()), d)
      decreases d
    {
      if d.properties !in entities {
        return;
      }
      ghost var f0 := Lists();
      AddDrawableNode(d);
      assert Lists() == AddNode(f0, d);
      for i := 0 to |d.nodes|
        invariant Valid()
        invariant Lists() == AddedChildren(AddNode(f0, d), d, i)
      {
        AddDrawable(d.nodes[i]);
      }
    }

    /**
     * The shadow pass of end(): the shadow-casting lights of the frame,
     * nearest first and at most MAX_SHADOW_CASTING_LIGHTS of them, are
     * visited in turn; a light that is dirty, or that a dirty
     * light-interacting entity reaches ((e, l) in reaches: e lies within l's
     * radius), has its flag cleared and its shadow rendered into the map
     * _getShadowMapHandleForLight hands it, which may allocate or evict.
     */
    method RenderShadows(frameLights: seq<LightDistance>, casts: set<Light>, reaches: set<(Entity, Light)>)
      returns (rendered: seq<Light>)
      requires Valid()
      requires forall i :: 0 <= i < |frameLights| ==> frameLights[i].light in lightsSeenBefore
      requires var casters := PassCasters(frameLights, casts);
               Pending(Visited(casters, MAX_SHADOW_UPDATES_PER_FRAME), lightsSeenBefore,
                       Touched(lightInteractingEntities, entitiesSeenBefore, casters, reaches)) != []
               ==> |smapCache.handleOrder| > 0
      modifies this`lightsSeenBefore, smapCache`lightsToShadowMap, smapCache`usedShadowMaps, smapCache`lruLightCache
      ensures Valid()
      ensures var casters := PassCasters(frameLights, casts);
              var touched := Touched(lightInteractingEntities, entitiesSeenBefore, casters, reaches);
              && rendered == Pending(Visited(casters, MAX_SHADOW_UPDATES_PER_FRAME), old(lightsSeenBefore), touched)
              && smapCache.State() == AllocateAll(old(smapCache.State()), rendered)
              && lightsSeenBefore == PassFlags(old(smapCache.State()), old(lightsSeenBefore), rendered)
    {
      var casters := PassCasters(frameLights, casts);
      var touched := Touched(lightInteractingEntities, entitiesSeenBefore, casters, reaches);
      // each light's flag at the start of the pass, raised by the entities that reach it
      var perLightIsDirty := set l | l in casters && (lightsSeenBefore[l].dirty || l in touched);
      rendered := ShadowUpdates(casters, touched, perLightIsDirty);
    }

    /** The loop of the shadow pass over the kept casters, with its update budget. */
    method ShadowUpdates(casters: seq<Light>, ghost touched: set<Light>, perLightIsDirty: set<Light>)
      returns (rendered: seq<Light>)
      requires Valid()
      requires forall l :: l in casters ==> l in lightsSeenBefore
      requires forall l :: l in perLightIsDirty <==> l in casters && (lightsSeenBefore[l].dirty || l in touched)
      requires Pending(Visited(casters, MAX_SHADOW_UPDATES_PER_FRAME), lightsSeenBefore, touched) != []
               ==> |smapCache.handleOrder| > 0
      modifies this`lightsSeenBefore, smapCache`lightsToShadowMap, smapCache`usedShadowMaps, smapCache`lruLightCache
      ensures Valid()
      ensures rendered == Pending(Visited(casters, MAX_SHADOW_UPDATES_PER_FRAME), old(lightsSeenBefore), touched)
      ensures smapCache.State() == AllocateAll(old(smapCache.State()), rendered)
      ensures lightsSeenBefore == PassFlags(old(smapCache.State()), old(lightsSeenBefore), rendered)
    {
      ghost var seen0, c0 := lightsSeenBefore, smapCache.State();
      rendered := ShadowLoop(c0, seen0, casters, touched, perLightIsDirty, 0, []);
      ghost var visited := Visited(casters, MAX_SHADOW_UPDATES_PER_FRAME);
      assert casters[..|visited|] == visited;
    }

    /**
     * The shadow loop from caster k on, with rendered0 drawn before it:
     * it stops at the end of the list or once the counter exceeds the
     * budget. Written tail-recursively, one call per turn of the loop.
     */
    method ShadowLoop(ghost c0: CacheState, ghost seen0: map<Light, EntityStateInfo>, casters: seq<Light>,
                      ghost touched: set<Light>, perLightIsDirty: set<Light>, shadowUpdates: nat, rendered0: seq<Light>)
      returns (rendered: seq<Light>)
      requires Valid() && shadowUpdates <= |casters| && shadowUpdates <= MAX_SHADOW_UPDATES_PER_FRAME + 1
      requires ShadowPassSoFar(c0, seen0, casters, touched, shadowUpdates, rendered0, smapCache.State(), lightsSeenBefore)
      requires forall l :: l in perLightIsDirty <==> l in casters && (seen0[l].dirty || l in touched)
      requires Pending(Visited(casters, MAX_SHADOW_UPDATES_PER_FRAME), seen0, touched) != [] ==> |c0.pool| > 0
      modifies this`lightsSeenBefore, smapCache`lightsToShadowMap, smapCache`usedShadowMaps, smapCache`lruLightCache
      ensures Valid()
      ensures ShadowPassSoFar(c0, seen0, casters, touched, |Visited(casters, MAX_SHADOW_UPDATES_PER_FRAME)|, rendered,
                              smapCache.State(), lightsSeenBefore)
      decreases |casters| - shadowUpdates
    {
      if shadowUpdates == |casters| || shadowUpdates > MAX_SHADOW_UPDATES_PER_FRAME {
        return rendered0;
      }
      rendered := ShadowTurn(c0, seen0, casters, touched, perLightIsDirty, shadowUpdates, rendered0);
      rendered := ShadowLoop(c0, seen0, casters, touched, perLightIsDirty, shadowUpdates + 1, rendered);
    }

    /** One turn of the shadow loop: caster k is rendered if it is dirty or touched. */
    method ShadowTurn(ghost c0: CacheState, ghost seen0: map<Light, EntityStateInfo>, casters: seq<Light>,
                      ghost touched: set<Light>, perLightIsDirty: set<Light>, k: nat, rendered0: seq<Light>)
      returns (rendered: seq<Light>)
      requires Valid() && k < |casters| && k <= MAX_SHADOW_UPDATES_PER_FRAME
      requires ShadowPassSoFar(c0, seen0, casters, touched, k, rendered0, smapCache.State(), lightsSeenBefore)
      requires forall l :: l in perLightIsDirty <==> l in casters && (seen0[l].dirty || l in touched)
      requires Pending(Visited(casters, MAX_SHADOW_UPDATES_PER_FRAME), seen0, touched) != [] ==> |c0.pool| > 0
      modifies this`lightsSeenBefore, smapCache`lightsToShadowMap, smapCache`usedShadowMaps, smapCache`lruLightCache
      ensures Valid()
      ensures ShadowPassSoFar(c0, seen0, casters, touched, k + 1, rendered, smapCache.State(), lightsSeenBefore)
    {
      var light := casters[k];
      ShadowPassFlagUp(c0, seen0, casters, touched, k, rendered0, smapCache.State(), lightsSeenBefore);
      var dirty := lightsSeenBefore[light].dirty || light in perLightIsDirty;
      if !dirty {
        ShadowPassSkipped(c0, seen0, casters, touched, k, rendered0, smapCache.State(), lightsSeenBefore);
        return rendered0;
      }
      assert |c0.pool| > 0 by {
        var visited := Visited(casters, MAX_SHADOW_UPDATES_PER_FRAME);
        assert visited[k] == light;
        assert light in Pending(visited, seen0, touched);
      }
      ShadowPassRendered(c0, seen0, casters, touched, k, rendered0, smapCache.State(), lightsSeenBefore);
      RenderShadow(light);
      rendered := rendered0 + [light];
    }

    /** One rendered light of the shadow pass: its flag is cleared, then its shadow map fetched to render into. */
    method RenderShadow(light: Light)
      requires Valid() && |smapCache.handleOrder| > 0 && light in lightsSeenBefore
      modifies this`lightsSeenBefore, smapCache`lightsToShadowMap, smapCache`usedShadowMaps, smapCache`lruLightCache
      ensures Valid()
      ensures smapCache.State() == GetOrAllocate(old(smapCache.State()), light).0
      ensures var clean := old(lightsSeenBefore)[light := old(lightsSeenBefore)[light].(dirty := false)];
              lightsSeenBefore == if light in old(smapCache.lightsToShadowMap) then clean
                                  else clean[light := clean[light].(dirty := true)]
    {
      lightsSeenBefore := lightsSeenBefore[light := lightsSeenBefore[light].(dirty := false)];
      var smap := GetShadowMapHandleForLight(light);
    }

    // -------------------------------------------------------------------------
    // Textures

    /** loadTexture: the handle of file, loading it (image is what reading the file gives) if it is new. */
    method LoadTexture(file: string, image: Option<Texture>) returns (h: Handle)
      requires Valid()
      modifies this`textures, this`textureHandles, this`nextTextureHandle
      ensures Valid()
      ensures (Store(), h) == Load(old(Store()), file, image)
    {
      LoadKeepsInv(Store(), file, image);
      var it := file in textures;
      if it {
        return textures[file].handle;
      }
      var handle := nextTextureHandle;
      nextTextureHandle := nextTextureHandle + 1;
      if image.None? {
        return INVALID_HANDLE;
      }
      var tex := TextureCache(file, handle, image, true);
      textures := textures[file := tex];
      textureHandles := textureHandles[handle := tex];
      h := handle;
    }

    /**
     * _lookupTexture: the texture behind h, reading its file again (giving
     * image) if it was marked unloaded; a shadow map's cube map; or nothing.
     */
    method LookupTexture(h: Handle, image: Option<Texture>) returns (t: Option<Texture>)
      requires Valid()
      modifies this`textures, this`textureHandles
      ensures Valid()
      ensures (Store(), t) == Lookup(old(Store()), CubeMaps(), h, image)
    {
      LookupKeepsInv(Store(), CubeMaps(), h, image);
      if h == INVALID_HANDLE {
        return None;
      }
      if h !in textureHandles {
        if h !in smapCache.shadowMap3DHandles {
          return None;
        }
        return Some(smapCache.shadowMap3DHandles[h].shadowCubeMap);
      }
      var tex := textureHandles[h];
      if !tex.loaded {
        tex := tex.(texture := image, loaded := image.Some?);
        textures := textures[tex.file := tex];
        textureHandles := textureHandles[h := tex];
        return tex.texture;
      }
      t := tex.texture;
    }

    /** invalidateAllTextures, as written: only the entries by file are emptied and marked unloaded. */
    method InvalidateAllTextures()
      requires Valid()
      modifies this`textures
      ensures Valid()
      ensures Store() == InvalidateAll(old(Store()))
    {
      textures := map f | f in textures :: textures[f].(texture := None, loaded := false);
    }

    // -------------------------------------------------------------------------
    // Window, perspective and bloom buffers

    /** setPerspectiveData: a field of view below MIN_FOV is ignored altogether. */
    method SetPerspectiveData(newFov: real, newNear: real, newFar: real)
      modifies this`fov, this`znear, this`zfar
      ensures newFov < MIN_FOV ==> fov == old(fov) && znear == old(znear) && zfar == old(zfar)
      ensures newFov >= MIN_FOV ==> fov == newFov && znear == newNear && zfar == newFar
    {
      if newFov < MIN_FOV {
        return;
      }
      fov, znear, zfar := newFov, newNear, newFar;
    }

    /**
     * _setWindowDimensions: nothing for the same size or a negative side;
     * otherwise the new size, emptied bloom buffers, and then (if the driver
     * accepts the G-buffer and the lighting framebuffer) the bloom buffers
     * of LegacyPostFx.
     */
    method SetWindowDimensions(w: Int32, h: Int32, gBufferComplete: bool, lightingComplete: bool, verdicts: seq<bool>)
      requires Valid()
      modifies this`windowWidth, this`windowHeight, this`postFxBuffers, this`isValid,
               this`numDownsampleIterations, this`numUpsampleIterations
      ensures Valid()
      ensures WindowUnchanged(old(windowWidth), old(windowHeight), w, h) ==>
                && windowWidth == old(windowWidth) && windowHeight == old(windowHeight)
                && postFxBuffers == old(postFxBuffers) && isValid == old(isValid)
                && numDownsampleIterations == old(numDownsampleIterations)
                && numUpsampleIterations == old(numUpsampleIterations)
      ensures !WindowUnchanged(old(windowWidth), old(windowHeight), w, h) ==>
                && windowWidth == w && windowHeight == h
                && (!(gBufferComplete && lightingComplete) ==>
                      && postFxBuffers == [] && !isValid
                      && numDownsampleIterations == old(numDownsampleIterations)
                      && numUpsampleIterations == old(numUpsampleIterations))
                && (gBufferComplete && lightingComplete ==>
                      var run := LegacyPostFx(Size(w as int, h as int), verdicts);
                      && postFxBuffers == run.buffers && numDownsampleIterations == run.downsamples
                      && numUpsampleIterations == run.upsamples && (isValid <==> old(isValid) && run.stop != Rejected))
    {
      if windowWidth == w && windowHeight == h {
        return;
      }
      if w < 0 || h < 0 {
        return;
      }
      windowWidth, windowHeight := w, h;
      RegenerateBuffers(gBufferComplete, lightingComplete, verdicts);
    }

    /**
     * The rest of _setWindowDimensions: the bloom buffers are emptied, the
     * G-buffer and the lighting framebuffer are rebuilt (a rejected one makes
     * the renderer invalid and ends it), then the bloom buffers are rebuilt.
     */
    method RegenerateBuffers(gBufferComplete: bool, lightingComplete: bool, verdicts: seq<bool>)
      requires windowWidth >= 0 && windowHeight >= 0
      modifies this`postFxBuffers, this`isValid, this`numDownsampleIterations, this`numUpsampleIterations
      ensures !(gBufferComplete && lightingComplete) ==>
                && postFxBuffers == [] && !isValid
                && numDownsampleIterations == old(numDownsampleIterations)
                && numUpsampleIterations == old(numUpsampleIterations)
      ensures gBufferComplete && lightingComplete ==>
                var run := LegacyPostFx(Size(windowWidth as int, windowHeight as int), verdicts);
                && postFxBuffers == run.buffers && numDownsampleIterations == run.downsamples
                && numUpsampleIterations == run.upsamples && (isValid <==> old(isValid) && run.stop != Rejected)
    {
      postFxBuffers := [];
      if !gBufferComplete {
        isValid := false;
        return;
      }
      if !lightingComplete {
        isValid := false;
        return;
      }
      InitializePostFxBuffers(verdicts);
    }

    /**
     * _initializePostFxBuffers: appends the bloom buffers of LegacyPostFx for
     * the window and records the iteration counts; a rejected framebuffer
     * makes the renderer invalid. When the run says Diverges the loop in the
     * renderer never ends and these are the buffers of its first doublings.
     */
    method InitializePostFxBuffers(verdicts: seq<bool>)
      requires windowWidth >= 0 && windowHeight >= 0
      modifies this`postFxBuffers, this`isValid, this`numDownsampleIterations, this`numUpsampleIterations
      ensures var run := LegacyPostFx(Size(windowWidth as int, windowHeight as int), verdicts);
              && postFxBuffers == old(postFxBuffers) + run.buffers
              && numDownsampleIterations == run.downsamples && numUpsampleIterations == run.upsamples
              && (isValid <==> old(isValid) && run.stop != Rejected)
    {
      var window := Size(windowWidth as int, windowHeight as int);
      var run := BuildLegacyPostFx(window, verdicts);
      postFxBuffers := postFxBuffers + run.buffers;
      numDownsampleIterations := run.downsamples;
      numUpsampleIterations := run.upsamples;
      if run.stop == Rejected {
        isValid := false;
      }
    }

    // -------------------------------------------------------------------------
    // Light slots of the lighting pass

    /**
     * _initLights: every light of the list gets a light slot; the first
     * maxShadowLights shadow casters also get a shadow slot showing the cube
     * map of their shadow-map handle, requested in slot order. With no
     * shadow slot given, slot 0 shows the dummy cube map.
     */
    method InitLights(frameLights: seq<LightDistance>, casts: set<Light>, maxShadowLights: nat)
      returns (numLights: nat, shadowLit: seq<Light>, shadowTextures: seq<Option<Texture>>, dummyTexture: Option<Texture>)
      requires Valid()
      requires forall i :: 0 <= i < |frameLights| ==> !frameLights[i].light.isVirtual
      requires forall i :: 0 <= i < |frameLights| ==> frameLights[i].light in lightsSeenBefore
      requires ShadowSlots(frameLights, casts, maxShadowLights) != [] ==> |smapCache.handleOrder| > 0
      modifies this`lightsSeenBefore, smapCache`lightsToShadowMap, smapCache`usedShadowMaps, smapCache`lruLightCache
      ensures Valid()
      ensures numLights == |frameLights|
      ensures shadowLit == ShadowSlots(frameLights, casts, maxShadowLights)
      ensures smapCache.State() == AllocateAll(old(smapCache.State()), shadowLit)
      ensures forall l :: l in shadowLit ==> l in old(lightsSeenBefore)
      ensures lightsSeenBefore == DirtyAfter(old(smapCache.State()), old(lightsSeenBefore), shadowLit)
      ensures SlotTextures(shadowLit, shadowTextures, smapCache.lightsToShadowMap, CubeMaps())
      ensures shadowLit == [] && dummyCubeMap != INVALID_HANDLE ==> dummyTexture == Some(CubeMaps()[dummyCubeMap])
      ensures shadowLit != [] || dummyCubeMap == INVALID_HANDLE ==> dummyTexture.None?
    {
      ghost var c0 := smapCache.State();
      ghost var seen0 := lightsSeenBefore;
      shadowLit, shadowTextures := [], [];
      assert frameLights[0..] == frameLights;
      numLights, shadowLit, shadowTextures := AssignSlots(c0, seen0, frameLights, casts, maxShadowLights, 0, 0, [], []);
      SlotsDone(c0, seen0, frameLights, casts, maxShadowLights, shadowLit, smapCache.State(), lightsSeenBefore);
      dummyTexture := None;
      if |shadowLit| == 0 && dummyCubeMap != INVALID_HANDLE {
        dummyTexture := LookupShadowMap(dummyCubeMap);
      }
    }

    /** _lookupTexture on a shadow-map handle: the handle's cube map, with the texture store left as it was. */
    function LookupShadowMap(h: Handle): (t: Option<Texture>)
      reads this`smapCache, smapCache, this`textures, this`textureHandles, this`nextTextureHandle, this`dummyCubeMap,
            this`lights, this`lightsSeenBefore, this`lightInteractingEntities, this`entitiesSeenBefore
      requires Valid() && h in smapCache.shadowMap3DHandles
      ensures t == Some(CubeMaps()[h])
      ensures Lookup(Store(), CubeMaps(), h, None) == (Store(), t)
    {
      Lookup(Store(), CubeMaps(), h, None).1
    }

    /** The slot loop of InitLights from light i on, written tail-recursively: one call per turn. */
    method AssignSlots(ghost c0: CacheState, ghost seen0: map<Light, EntityStateInfo>, frameLights: seq<LightDistance>,
                       casts: set<Light>, maxShadowLights: nat, i: nat, lightIndex0: nat,
                       shadowLit0: seq<Light>, shadowTextures0: seq<Option<Texture>>)
      returns (lightIndex: nat, shadowLit: seq<Light>, shadowTextures: seq<Option<Texture>>)
      requires Valid() && i <= |frameLights| && lightIndex0 == i
      requires ShadowSlotsSoFar(c0, seen0, frameLights, casts, maxShadowLights, i, shadowLit0,
                                smapCache.State(), lightsSeenBefore)
      requires SlotTextures(shadowLit0, shadowTextures0, smapCache.lightsToShadowMap, CubeMaps())
      modifies this`lightsSeenBefore, smapCache`lightsToShadowMap, smapCache`usedShadowMaps, smapCache`lruLightCache
      ensures Valid() && lightIndex == |frameLights|
      ensures ShadowSlotsSoFar(c0, seen0, frameLights, casts, maxShadowLights, |frameLights|, shadowLit,
                               smapCache.State(), lightsSeenBefore)
      ensures SlotTextures(shadowLit, shadowTextures, smapCache.lightsToShadowMap, CubeMaps())
      decreases |frameLights| - i
    {
      if i == |frameLights| {
        return lightIndex0, shadowLit0, shadowTextures0;
      }
      shadowLit, shadowTextures := AssignSlot(c0, seen0, frameLights, casts, maxShadowLights, i, shadowLit0, shadowTextures0);
      lightIndex, shadowLit, shadowTextures :=
        AssignSlots(c0, seen0, frameLights, casts, maxShadowLights, i + 1, lightIndex0 + 1, shadowLit, shadowTextures);
    }

    /** One turn of the slot loop: light i takes the next shadow slot if it casts shadows and one is left. */
    method AssignSlot(ghost c0: CacheState, ghost seen0: map<Light, EntityStateInfo>, frameLights: seq<LightDistance>,
                      casts: set<Light>, maxShadowLights: nat, i: nat,
                      shadowLit0: seq<Light>, shadowTextures0: seq<Option<Texture>>)
      returns (shadowLit: seq<Light>, shadowTextures: seq<Option<Texture>>)
      requires Valid() && i < |frameLights|
      requires ShadowSlotsSoFar(c0, seen0, frameLights, casts, maxShadowLights, i, shadowLit0,
                                smapCache.State(), lightsSeenBefore)
      requires SlotTextures(shadowLit0, shadowTextures0, smapCache.lightsToShadowMap, CubeMaps())
      modifies this`lightsSeenBefore, smapCache`lightsToShadowMap, smapCache`usedShadowMaps, smapCache`lruLightCache
      ensures Valid()
      ensures ShadowSlotsSoFar(c0, seen0, frameLights, casts, maxShadowLights, i + 1, shadowLit,
                               smapCache.State(), lightsSeenBefore)
      ensures SlotTextures(shadowLit, shadowTextures, smapCache.lightsToShadowMap, CubeMaps())
    {
      shadowLit, shadowTextures := shadowLit0, shadowTextures0;
      var light := frameLights[i].light;
      ShadowPrefixNext(frameLights, casts, maxShadowLights, i, shadowLit);
      if light in casts && |shadowLit| < maxShadowLights {
        AllocateAllSnoc(c0, shadowLit, light);
        DirtyAfterSnoc(c0, seen0, shadowLit, light);
        shadowLit, shadowTextures := GrantShadowSlot(light, shadowLit, shadowTextures);
      }
    }

    /** A caster with a shadow slot left: it takes the next slot, showing its own shadow map. */
    method GrantShadowSlot(light: Light, shadowLit0: seq<Light>, shadowTextures0: seq<Option<Texture>>)
      returns (shadowLit: seq<Light>, shadowTextures: seq<Option<Texture>>)
      requires Valid() && |smapCache.handleOrder| > 0 && light in lightsSeenBefore
      requires SlotTextures(shadowLit0, shadowTextures0, smapCache.lightsToShadowMap, CubeMaps())
      modifies this`lightsSeenBefore, smapCache`lightsToShadowMap, smapCache`usedShadowMaps, smapCache`lruLightCache
      ensures Valid() && shadowLit == shadowLit0 + [light]
      ensures smapCache.State() == GetOrAllocate(old(smapCache.State()), light).0
      ensures lightsSeenBefore ==
                if light in old(smapCache.lightsToShadowMap) then old(lightsSeenBefore)
                else old(lightsSeenBefore)[light := old(lightsSeenBefore)[light].(dirty := true)]
      ensures SlotTextures(shadowLit, shadowTextures, smapCache.lightsToShadowMap, CubeMaps())
    {
      SlotTexturesGrow(shadowLit0, shadowTextures0, smapCache.State(), light, CubeMaps());
      var h := GetShadowMapHandleForLight(light);
      var t := LookupShadowMap(h);
      shadowLit := shadowLit0 + [light];
      shadowTextures := shadowTextures0 + [t];
    }
  }

  // ---------------------------------------------------------------------------
  // The slot loop's invariant

  /** shadowLit holds the shadow slots of the first i lights. */
  ghost predicate ShadowPrefix(frameLights: seq<LightDistance>, casts: set<Light>, maxShadowLights: nat, i: nat,
                               shadowLit: seq<Light>)
  {
    && i <= |frameLights| && |shadowLit| <= maxShadowLights
    && shadowLit + ShadowSlots(frameLights[i..], casts, maxShadowLights - |shadowLit|)
         == ShadowSlots(frameLights, casts, maxShadowLights)
  }

  /**
   * The slot loop after i lights: the slots so far, the cache after the
   * requests of their lights, and the dirty flags those requests raised.
   */
  ghost predicate ShadowSlotsSoFar(c0: CacheState, seen0: map<Light, EntityStateInfo>, frameLights: seq<LightDistance>,
                                   casts: set<Light>, maxShadowLights: nat, i: nat, shadowLit: seq<Light>,
                                   state: CacheState, seen: map<Light, EntityStateInfo>)
  {
    && ShadowPrefix(frameLights, casts, maxShadowLights, i, shadowLit)
    && Inv(c0)
    && (ShadowSlots(frameLights, casts, maxShadowLights) != [] ==> |c0.pool| > 0)
    && (forall j :: 0 <= j < |frameLights| ==> frameLights[j].light in seen0)
    && (forall j :: 0 <= j < |frameLights| ==> !frameLights[j].light.isVirtual)
    && (forall l :: l in shadowLit ==> l in seen0)
    && state == AllocateAll(c0, shadowLit)
    && seen == DirtyAfter(c0, seen0, shadowLit)
  }

  /** The slot loop's invariant after the last light gives InitLights' results. */
  lemma SlotsDone(c0: CacheState, seen0: map<Light, EntityStateInfo>, frameLights: seq<LightDistance>,
                  casts: set<Light>, maxShadowLights: nat, shadowLit: seq<Light>,
                  state: CacheState, seen: map<Light, EntityStateInfo>)
    requires ShadowSlotsSoFar(c0, seen0, frameLights, casts, maxShadowLights, |frameLights|, shadowLit, state, seen)
    ensures shadowLit == ShadowSlots(frameLights, casts, maxShadowLights)
    ensures forall l :: l in shadowLit ==> l in seen0
    ensures state == AllocateAll(c0, shadowLit)
    ensures seen == DirtyAfter(c0, seen0, shadowLit)
  {
    assert frameLights[|frameLights|..] == [];
    AppendEmpty(shadowLit);
  }

  /** Shadow slot j shows the cube map behind the handle its light is mapped to. */
  ghost predicate SlotTextures(shadowLit: seq<Light>, shadowTextures: seq<Option<Texture>>,
                               lightsToShadowMap: map<Light, Handle>, cubeMaps: map<Handle, Texture>)
  {
    && |shadowTextures| == |shadowLit|
    && forall j :: 0 <= j < |shadowLit| ==>
         && shadowLit[j] in lightsToShadowMap
         && lightsToShadowMap[shadowLit[j]] in cubeMaps
         && shadowTextures[j] == Some(cubeMaps[lightsToShadowMap[shadowLit[j]]])
  }

  /** One turn of the slot loop keeps ShadowPrefix, whether or not light i gets a shadow slot. */
  lemma ShadowPrefixNext(frameLights: seq<LightDistance>, casts: set<Light>, maxShadowLights: nat, i: nat,
                         shadowLit: seq<Light>)
    requires i < |frameLights| && ShadowPrefix(frameLights, casts, maxShadowLights, i, shadowLit)
    requires !frameLights[i].light.isVirtual
    ensures var l := frameLights[i].light;
      var granted := l in casts && |shadowLit| < maxShadowLights;
      && (granted ==> ShadowSlots(frameLights, casts, maxShadowLights) != [])
      && ShadowPrefix(frameLights, casts, maxShadowLights, i + 1, if granted then shadowLit + [l] else shadowLit)
  {
    var l, room := frameLights[i].light, maxShadowLights - |shadowLit|;
    assert frameLights[i..][0] == frameLights[i] && frameLights[i..][1..] == frameLights[i + 1..];
    if l in casts && room > 0 {
      var rest := ShadowSlots(frameLights[i + 1..], casts, room - 1);
      assert shadowLit + ([l] + rest) == (shadowLit + [l]) + rest;
    }
  }

  /** A request keeps earlier slots' textures, as the requested light is the only one whose entry can appear. */
  lemma SlotTexturesGrow(shadowLit: seq<Light>, shadowTextures: seq<Option<Texture>>, c: CacheState, l: Light,
                         cubeMaps: map<Handle, Texture>)
    requires Inv(c) && |c.pool| > 0
    requires SlotTextures(shadowLit, shadowTextures, c.lightsToShadowMap, cubeMaps)
    ensures SlotTextures(shadowLit, shadowTextures, GetOrAllocate(c, l).0.lightsToShadowMap, cubeMaps)
  {
    forall j | 0 <= j < |shadowLit| ensures
      GetOrAllocate(c, l).0.lightsToShadowMap[shadowLit[j]] == c.lightsToShadowMap[shadowLit[j]]
      && shadowLit[j] in GetOrAllocate(c, l).0.lightsToShadowMap
    {
      GetOrAllocateKeepsEntries(c, l, shadowLit[j]);
    }
  }

  // ---------------------------------------------------------------------------
  // The shadow pass

  /** How many of the first n framebuffers the driver accepts. */
  function AcceptedCount(verdicts: seq<bool>, n: nat): (r: nat)
    ensures r <= n
    ensures r == n <==> forall i :: 0 <= i < n ==> Accepts(verdicts, i)
  {
    if n == 0 then 0 else AcceptedCount(verdicts, n - 1) + (if Accepts(verdicts, n - 1) then 1 else 0)
  }

  /** The lights the shadow pass visits: the frame's shadow casters, nearest first, at most MAX_SHADOW_CASTING_LIGHTS. */
  function PassCasters(frameLights: seq<LightDistance>, casts: set<Light>): (r: seq<Light>)
    ensures |r| <= MAX_SHADOW_CASTING_LIGHTS
    ensures forall l :: l in r ==> l in casts && exists i :: 0 <= i < |frameLights| && frameLights[i].light == l
  {
    PassCastersFromFrame(frameLights, casts);
    LightsOf(Kept(ShadowCasters(frameLights, casts), MAX_SHADOW_CASTING_LIGHTS))
  }

  lemma PassCastersFromFrame(frameLights: seq<LightDistance>, casts: set<Light>)
    ensures var r := LightsOf(Kept(ShadowCasters(frameLights, casts), MAX_SHADOW_CASTING_LIGHTS));
      && |r| <= MAX_SHADOW_CASTING_LIGHTS
      && forall l :: l in r ==> l in casts && exists i :: 0 <= i < |frameLights| && frameLights[i].light == l
  {
    var sc := ShadowCasters(frameLights, casts);
    var kept := Kept(sc, MAX_SHADOW_CASTING_LIGHTS);
    KeptAreNearest(sc, MAX_SHADOW_CASTING_LIGHTS);
    var r := LightsOf(kept);
    forall l | l in r ensures l in casts && exists i :: 0 <= i < |frameLights| && frameLights[i].light == l {
      var j :| 0 <= j < |r| && r[j] == l;
      assert kept[j] == SortByDistance(sc)[j];
      assert kept[j] in multiset(SortByDistance(sc));
      assert kept[j] in sc;
      var i :| 0 <= i < |frameLights| && frameLights[i] == kept[j];
    }
  }

  /** The shadow pass after k casters: what it rendered, the cache its map requests left, and the records. */
  ghost predicate ShadowPassSoFar(c0: CacheState, seen0: map<Light, EntityStateInfo>, casters: seq<Light>,
                                  touched: set<Light>, k: nat, rendered: seq<Light>,
                                  state: CacheState, seen: map<Light, EntityStateInfo>)
  {
    && k <= |casters|
    && (forall l :: l in casters ==> l in seen0)
    && Inv(c0) && (rendered != [] ==> |c0.pool| > 0)
    && rendered == Pending(casters[..k], seen0, touched)
    && state == AllocateAll(c0, rendered)
    && seen == PassFlags(c0, seen0, rendered)
  }

  /** A caster whose flag is up during the pass was dirty, or touched, when the pass began. */
  lemma ShadowPassFlagUp(c0: CacheState, seen0: map<Light, EntityStateInfo>, casters: seq<Light>, touched: set<Light>,
                         k: nat, rendered: seq<Light>, state: CacheState, seen: map<Light, EntityStateInfo>)
    requires k < |casters| && ShadowPassSoFar(c0, seen0, casters, touched, k, rendered, state, seen)
    ensures casters[k] in seen && (seen[casters[k]].dirty ==> seen0[casters[k]].dirty || casters[k] in touched)
  {
    PassFlagsFrame(c0, seen0, rendered);
  }

  /** The next caster needs rendering: it joins the rendered list, its map is requested and its flag moves as PassFlags. */
  lemma ShadowPassRendered(c0: CacheState, seen0: map<Light, EntityStateInfo>, casters: seq<Light>, touched: set<Light>,
                           k: nat, rendered: seq<Light>, state: CacheState, seen: map<Light, EntityStateInfo>)
    requires k < |casters| && ShadowPassSoFar(c0, seen0, casters, touched, k, rendered, state, seen)
    requires seen0[casters[k]].dirty || casters[k] in touched
    requires |c0.pool| > 0
    ensures var l := casters[k];
            var clean := seen[l := seen[l].(dirty := false)];
            ShadowPassSoFar(c0, seen0, casters, touched, k + 1, rendered + [l], GetOrAllocate(state, l).0,
                            if l in state.lightsToShadowMap then clean else clean[l := clean[l].(dirty := true)])
  {
    var l := casters[k];
    assert Pending(casters[..k + 1], seen0, touched) == rendered + [l] by {
      assert casters[..k + 1][..k] == casters[..k];
    }
    AllocateAllSnoc(c0, rendered, l);
    PassFlagsSnoc(c0, seen0, rendered, l);
  }

  /** The next caster needs no rendering: nothing changes. */
  lemma ShadowPassSkipped(c0: CacheState, seen0: map<Light, EntityStateInfo>, casters: seq<Light>, touched: set<Light>,
                          k: nat, rendered: seq<Light>, state: CacheState, seen: map<Light, EntityStateInfo>)
    requires k < |casters| && ShadowPassSoFar(c0, seen0, casters, touched, k, rendered, state, seen)
    requires !(seen0[casters[k]].dirty || casters[k] in touched)
    ensures ShadowPassSoFar(c0, seen0, casters, touched, k + 1, rendered, state, seen)
  {
    assert Pending(casters[..k + 1], seen0, touched) == rendered by {
      assert casters[..k + 1][..k] == casters[..k];
    }
  }

  // ---------------------------------------------------------------------------
  // The bloom loops

  /** _initializePostFxBuffers's loops, on values: the downsampling loop, then the doubling loop. */
  method BuildLegacyPostFx(window: Size, verdicts: seq<bool>) returns (run: LegacyRun)
    ensures run == LegacyPostFx(window, verdicts)
  {
    var downs, curr, rejected := Downsample(window, verdicts);
    if rejected {
      return LegacyRun(downs, |downs|, 0, Rejected);
    }
    var ups, stop := Upsample(curr, window, verdicts, |downs|);
    run := LegacyRun(downs + ups, |downs|, |ups| + (if stop == Rejected then 1 else 0), stop);
  }

  /** The downsampling loop: halve, stop below the minimum, stop at a rejected framebuffer, push. */
  method Downsample(window: Size, verdicts: seq<bool>) returns (downs: seq<Size>, curr: Size, rejected: bool)
    ensures (downs, curr, rejected) == Descend(window, verdicts, 0, LEGACY_DOWNSAMPLE_ITERATIONS)
  {
    downs, curr, rejected := [], window, false;
    assert [] + Descend(window, verdicts, 0, LEGACY_DOWNSAMPLE_ITERATIONS).0 == Descend(window, verdicts, 0, LEGACY_DOWNSAMPLE_ITERATIONS).0;
    var n := 0;
    while n < LEGACY_DOWNSAMPLE_ITERATIONS
      invariant n <= LEGACY_DOWNSAMPLE_ITERATIONS
      invariant DescendFrom(window, verdicts, downs, curr, n)
    {
      var prev := curr;
      DescendNext(window, verdicts, downs, prev, n);
      curr := Half(curr);
      if curr.width < MIN_BLOOM_SIZE || curr.height < MIN_BLOOM_SIZE {
        return;
      }
      if !Accepts(verdicts, n) {
        rejected := true;
        return;
      }
      downs := downs + [curr];
      n := n + 1;
    }
  }

  /** The downsampling loop after n halvings: downs pushed so far, curr the current size. */
  ghost predicate DescendFrom(window: Size, verdicts: seq<bool>, downs: seq<Size>, curr: Size, n: nat) {
    && n <= LEGACY_DOWNSAMPLE_ITERATIONS && |downs| == n
    && var all := Descend(window, verdicts, 0, LEGACY_DOWNSAMPLE_ITERATIONS);
       var rest := Descend(curr, verdicts, n, LEGACY_DOWNSAMPLE_ITERATIONS - n);
       all.0 == downs + rest.0 && all.1 == rest.1 && all.2 == rest.2
  }

  /** One turn of the downsampling loop: where it stops, and the invariant if it goes on. */
  lemma DescendNext(window: Size, verdicts: seq<bool>, downs: seq<Size>, curr: Size, n: nat)
    requires n < LEGACY_DOWNSAMPLE_ITERATIONS && DescendFrom(window, verdicts, downs, curr, n)
    ensures var t := Half(curr);
      && (t.width < MIN_BLOOM_SIZE || t.height < MIN_BLOOM_SIZE ==>
            Descend(window, verdicts, 0, LEGACY_DOWNSAMPLE_ITERATIONS) == (downs, t, false))
      && (t.width >= MIN_BLOOM_SIZE && t.height >= MIN_BLOOM_SIZE && !Accepts(verdicts, n) ==>
            Descend(window, verdicts, 0, LEGACY_DOWNSAMPLE_ITERATIONS) == (downs, t, true))
      && (t.width >= MIN_BLOOM_SIZE && t.height >= MIN_BLOOM_SIZE && Accepts(verdicts, n) ==>
            DescendFrom(window, verdicts, downs + [t], t, n + 1))
  {
    var t := Half(curr);
    var here := Descend(curr, verdicts, n, LEGACY_DOWNSAMPLE_ITERATIONS - n);
    var rest := Descend(t, verdicts, n + 1, LEGACY_DOWNSAMPLE_ITERATIONS - (n + 1));
    DescendStep(curr, verdicts, n, LEGACY_DOWNSAMPLE_ITERATIONS - n);
    if t.width < MIN_BLOOM_SIZE || t.height < MIN_BLOOM_SIZE || !Accepts(verdicts, n) {
      AppendEmpty(downs);
    } else {
      AppendAssoc(downs, [t], rest.0);
    }
  }

  /** One unfolding of Descend. */
  lemma DescendStep(s: Size, verdicts: seq<bool>, i: nat, left: nat)
    requires left > 0
    ensures var t := Half(s);
      var r := Descend(s, verdicts, i, left);
      var rest := Descend(t, verdicts, i + 1, left - 1);
      && r.1 == (if t.width < MIN_BLOOM_SIZE || t.height < MIN_BLOOM_SIZE || !Accepts(verdicts, i) then t else rest.1)
      && (t.width < MIN_BLOOM_SIZE || t.height < MIN_BLOOM_SIZE ==> r.0 == [] && !r.2)
      && (t.width >= MIN_BLOOM_SIZE && t.height >= MIN_BLOOM_SIZE && !Accepts(verdicts, i) ==> r.0 == [] && r.2)
      && (t.width >= MIN_BLOOM_SIZE && t.height >= MIN_BLOOM_SIZE && Accepts(verdicts, i) ==>
            r.0 == [t] + rest.0 && r.2 == rest.2)
  {
  }

  /** The doubling loop, for at most CLIMB_BOUND turns. */
  method Upsample(start: Size, window: Size, verdicts: seq<bool>, i0: nat) returns (ups: seq<Size>, stop: Stop)
    ensures (ups, stop) == Climb(start, window, verdicts, i0, CLIMB_BOUND)
  {
    var curr := start;
    ups := [];
    assert [] + Climb(start, window, verdicts, i0, CLIMB_BOUND).0 == Climb(start, window, verdicts, i0, CLIMB_BOUND).0;
    var k := 0;
    while k < CLIMB_BOUND
      invariant k <= CLIMB_BOUND
      invariant ClimbFrom(start, window, verdicts, i0, ups, curr, k)
    {
      var prev := curr;
      curr := TwiceSize(curr);
      if !Accepts(verdicts, i0 + k) {
        ClimbNext(start, window, verdicts, i0, ups, prev, k);
        return ups, Rejected;
      }
      ClimbNext(start, window, verdicts, i0, ups, prev, k);
      ups := ups + [curr];
      if Reaches(curr, window) {
        return ups, Completed;
      }
      k := k + 1;
    }
    AppendEmpty(ups);
    stop := Diverges;
  }

  /** The doubling loop after k turns: ups pushed so far, curr the current size. */
  ghost predicate ClimbFrom(start: Size, window: Size, verdicts: seq<bool>, i0: nat, ups: seq<Size>, curr: Size, k: nat) {
    && k <= CLIMB_BOUND && |ups| == k
    && Climb(start, window, verdicts, i0, CLIMB_BOUND).0 == ups + Climb(curr, window, verdicts, i0 + k, CLIMB_BOUND - k).0
    && Climb(start, window, verdicts, i0, CLIMB_BOUND).1 == Climb(curr, window, verdicts, i0 + k, CLIMB_BOUND - k).1
  }

  /** One turn of the doubling loop: where it stops, and the invariant if it goes on. */
  lemma ClimbNext(start: Size, window: Size, verdicts: seq<bool>, i0: nat, ups: seq<Size>, curr: Size, k: nat)
    requires k < CLIMB_BOUND && ClimbFrom(start, window, verdicts, i0, ups, curr, k)
    ensures var t := TwiceSize(curr);
      && (!Accepts(verdicts, i0 + k) ==> Climb(start, window, verdicts, i0, CLIMB_BOUND) == (ups, Rejected))
      && (Accepts(verdicts, i0 + k) && Reaches(t, window) ==>
            Climb(start, window, verdicts, i0, CLIMB_BOUND) == (ups + [t], Completed))
      && (Accepts(verdicts, i0 + k) && !Reaches(t, window) ==>
            ClimbFrom(start, window, verdicts, i0, ups + [t], t, k + 1))
  {
    var t := TwiceSize(curr);
    var here := Climb(curr, window, verdicts, i0 + k, CLIMB_BOUND - k);
    var rest := Climb(t, window, verdicts, i0 + k + 1, CLIMB_BOUND - (k + 1));
    ClimbStep(curr, window, verdicts, i0 + k, CLIMB_BOUND - k);
    if !Accepts(verdicts, i0 + k) {
      AppendEmpty(ups);
    } else if !Reaches(t, window) {
      AppendAssoc(ups, [t], rest.0);
    }
  }

  /** One unfolding of Climb. */
  lemma ClimbStep(s: Size, window: Size, verdicts: seq<bool>, i: nat, fuel: nat)
    requires fuel > 0
    ensures var t := TwiceSize(s);
      var r := Climb(s, window, verdicts, i, fuel);
      var rest := Climb(t, window, verdicts, i + 1, fuel - 1);
      && (!Accepts(verdicts, i) ==> r.0 == [] && r.1 == Rejected)
      && (Accepts(verdicts, i) && Reaches(t, window) ==> r.0 == [t] && r.1 == Completed)
      && (Accepts(verdicts, i) && !Reaches(t, window) ==> r.0 == [t] + rest.0 && r.1 == rest.1)
  {
  }

  // The two sequence facts below are stated once as lemmas so that the loops
  // of the bloom chain call them instead of asking the solver for sequence
  // extensionality among their larger invariants.

  lemma AppendEmpty<T>(a: seq<T>)
    ensures a + [] == a
  {
  }

  lemma AppendAssoc<T>(a: seq<T>, b: seq<T>, c: seq<T>)
    ensures a + (b + c) == (a + b) + c
  {
  }
}
