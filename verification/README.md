# Stratus renderer core: shadow-map cache, light scheduling and framebuffers

This project models the resource bookkeeping of the Stratus OpenGL renderer
in two generations, together with its framebuffer wrapper.

- The newer `RendererBackend` (`Source/Engine/StratusRendererBackend.cpp`):
  - two shadow-map caches, one for regular point lights and one for virtual
    point lights (VPLs);
  - the least-recently-used allocation of cube shadow maps to lights;
  - the per-frame point-light pass (classify, sort by distance, cut to the
    caps, queue the lights without a shadow map, drain a bounded number of
    them);
  - light and shadow slots of the lighting pass;
  - shader binding;
  - the sizes and validity of the bloom and post-processing framebuffers.
- The older `Renderer` (`src/Renderer.cpp`):
  - the same kind of LRU cache, over a single pool;
  - the "seen before" records that decide which shadow maps are redrawn;
  - adding drawables and their child nodes to the frame;
  - the shadow pass of `end()`;
  - the texture cache (load, lookup, invalidate);
  - window and perspective setup;
  - its bloom chain, whose doubling loop is modelled with 32-bit wrap-around.
- `FrameBufferImpl` / `FrameBuffer` (`Source/Engine/StratusFrameBuffer.cpp`):
  - attachment rules and the exceptions they throw;
  - layer selection;
  - clear;
  - bind and unbind;
  - the blit mask and filter of `copyFrom`.

The files, one module each:

- `wrappers.dfy`: `Option` / `Result`.
- `lru_spec.dfy`: the cache as a value, its invariant and lemmas, and a corrected variant.
- `smap_cache.dfy`: the cache as a class whose methods update its containers in place.
- `scheduling.dfy`: classification, ordering, truncation, queueing and slots, as functions.
- `postfx.dfy`: the newer backend's post-processing plan and the loops that build it.
- `backend.dfy`: the `RendererBackend` class.
- `legacy_spec.dfy`: the old renderer's value-level behaviour.
- `legacy_renderer.dfy`: the `Renderer` class.
- `framebuffer.dfy`: the framebuffer classes.

OpenGL calls are not modelled. Where a result depends on them, it becomes a
parameter: the driver's verdict on a framebuffer's completeness, a shader's
compile verdict, the image a texture load yields, the distances of lights
to the camera.

## Model

| member | source | states |
|---|---|---|
| LruSpec.FirstFreeIndex | Source/Engine/StratusRendererBackend.cpp:1684-1689 | every pool handle before the index is in use and the one at it (if any) is free |
| LruSpec.FirstFree | Source/Engine/StratusRendererBackend.cpp:1684-1689 | nothing is found exactly when every pool handle is in use; a found handle is in the pool and free |
| LruSpec.EraseFirst | Source/Engine/StratusRendererBackend.cpp:1720-1728 | a list without the light is unchanged; otherwise exactly one element is dropped |
| LruSpec.EraseFirstMultiset | Source/Engine/StratusRendererBackend.cpp:1720-1728 | erasing removes one copy of the light and nothing else (multiset difference) |
| LruSpec.Touch | Source/Engine/StratusRendererBackend.cpp:1735-1741 | the touched light ends up last, the most recently used |
| LruSpec.TouchDistinct | Source/Engine/StratusRendererBackend.cpp:1735-1741 | touching keeps the recency list free of duplicates and its members are the old ones plus the light |
| LruSpec.SetHandle | Source/Engine/StratusRendererBackend.cpp:1714-1718 | the light is mapped and the handle marked used; an existing entry is kept (map insert does not overwrite) |
| LruSpec.EmptyCache | Source/Engine/StratusRendererBackend.cpp:206-216 | a pool with no lights satisfies the cache invariant |
| LruSpec.ExhaustedPoolHasRecent | Source/Engine/StratusRendererBackend.cpp:1691-1693 | when no handle is free, the recency list is not empty, so taking its front is safe |
| LruSpec.GetOrAllocate | Source/Engine/StratusRendererBackend.cpp:1676-1707 | the light is mapped to the returned pool handle and is the most recently used; the pool is unchanged |
| LruSpec.GetOrAllocateHit | Source/Engine/StratusRendererBackend.cpp:1704-1706 | a light with a handle keeps it; only its place in the recency list moves to the back |
| LruSpec.GetOrAllocateFresh | Source/Engine/StratusRendererBackend.cpp:1682-1690 | a new light with a free handle gets the first free one in pool order |
| LruSpec.GetOrAllocateEvicts | Source/Engine/StratusRendererBackend.cpp:1691-1699 | a new light with no free handle takes the handle of the least recently used light; that light leaves the recency list but keeps its map entry |
| LruSpec.GetOrAllocateKeepsEntries | Source/Engine/StratusRendererBackend.cpp:1699 | no existing map entry is ever changed by a request |
| LruSpec.InvAfterTouch | Source/Engine/StratusRendererBackend.cpp:1705 | a hit keeps the cache invariant |
| LruSpec.InvAfterFresh | Source/Engine/StratusRendererBackend.cpp:1699-1700 | allocating a free handle keeps the cache invariant |
| LruSpec.InvAfterEvict | Source/Engine/StratusRendererBackend.cpp:1691-1700 | evicting keeps the cache invariant (stale entries allowed, but never on the recency list) |
| LruSpec.GetOrAllocateKeepsInv | Source/Engine/StratusRendererBackend.cpp:1676-1707 | every request keeps the invariant: handles from the pool, recency list distinct and mapped |
| LruSpec.AllocateAll | Source/Engine/StratusRendererBackend.cpp:1014-1023 | a run of requests keeps the invariant and the pool |
| LruSpec.AllocateAllSnoc | Source/Engine/StratusRendererBackend.cpp:1014-1023 | one more request after a run is one more GetOrAllocate on the run's result |
| LruSpec.AllocateAllMapsEvery | Source/Engine/StratusRendererBackend.cpp:1014-1023 | after a run every requested light has a shadow map |
| LruSpec.Remove | Source/Engine/StratusRendererBackend.cpp:1743-1755 | removing a light without an entry changes nothing; otherwise its entry goes, its handle leaves the used set and its first place in the recency list is erased |
| LruSpec.RemoveLeavesRecency | Source/Engine/StratusRendererBackend.cpp:1743-1755 | under the invariant the removed light is nowhere in the recency list, which loses exactly one copy of it |
| LruSpec.RemoveDropsSharedHandle | Source/Engine/StratusRendererBackend.cpp:1691-1699 | when an evicted light still shares a handle with another, removing it frees the handle the other light still maps to |
| LruSpec.RemoveKeepsInv | Source/Engine/StratusRendererBackend.cpp:1743-1755 | removal keeps the cache invariant |
| LruSpec.RemoveAll | Source/Engine/StratusRendererBackend.cpp:579-587 | removing a list of lights leaves the pool unchanged |
| LruSpec.RemoveAllForgets | Source/Engine/StratusRendererBackend.cpp:579-587 | after clearing a list, none of its lights has an entry, lights not in it keep theirs, and the invariant holds |
| LruSpec.RemoveIdempotent | Source/Engine/StratusRendererBackend.cpp:1744 | removing twice is removing once (the guard returns early) |
| LruSpec.RemoveIsolated | Source/Engine/StratusRendererBackend.cpp:1743-1755 | removing one light leaves another light's entry, used handle and recency place alone |
| LruSpec.Scenario | Source/Engine/StratusRendererBackend.cpp:1676-1707 | a run of requests returns one handle per request |
| LruSpec.StaleEntrySharesHandle | Source/Engine/StratusRendererBackend.cpp:1691-1699 | with two handles and requests a, b, c, a, the second request for a is served from its stale entry and shares c's handle |
| LruSpec.InvFixedIsInv | Source/Engine/StratusRendererBackend.cpp:1676-1707 | the corrected invariant implies the as-written one |
| LruSpec.GetOrAllocateFixed | Source/Engine/StratusRendererBackend.cpp:1691-1699 | corrected request: the light holds the returned pool handle |
| LruSpec.FixedEvicts | Source/Engine/StratusRendererBackend.cpp:1691-1699 | the corrected eviction erases the evicted light's entry and hands its handle to the new light |
| LruSpec.GetOrAllocateFixedKeepsInv | Source/Engine/StratusRendererBackend.cpp:1676-1707 | corrected requests never let two lights hold one handle |
| LruSpec.RemoveKeepsInvFixed | Source/Engine/StratusRendererBackend.cpp:1743-1755 | removal keeps the corrected invariant |
| LruSpec.ScenarioFixed | Source/Engine/StratusRendererBackend.cpp:1676-1707 | a corrected run returns one handle per request and keeps the corrected invariant |
| LruSpec.FixedAgreesOffEviction | Source/Engine/StratusRendererBackend.cpp:1680-1690 | on hits and on free-handle allocation the correction behaves exactly as the source |
| LruSpec.FixedScenarioEvictsLeastRecent | Source/Engine/StratusRendererBackend.cpp:1691-1699 | in the same run the corrected cache gives a the handle of b, the least recently used light |
| ShadowMapCaches.InvAfterGrow | Source/Engine/StratusRendererBackend.cpp:1515-1548 | adding a new shadow map to the pool keeps the invariant |
| ShadowMapCaches.ShadowMapCache.constructor | Source/Engine/StratusRendererBackend.cpp:59-204 | a new cache is empty and valid |
| ShadowMapCaches.ShadowMapCache.Insert | Source/Engine/StratusRendererBackend.cpp:1543-1547 | a new shadow map is registered under its handle and appended to the pool order |
| ShadowMapCaches.ShadowMapCache.FindFreeHandle | Source/Engine/StratusRendererBackend.cpp:1684-1689 | the scan returns the first free handle in pool order, or none when all are in use |
| ShadowMapCaches.ShadowMapCache.SetLightShadowMapHandle | Source/Engine/StratusRendererBackend.cpp:1714-1718 | the containers change exactly as the value-level SetHandle says |
| ShadowMapCaches.ShadowMapCache.EvictLightFromShadowMapCache | Source/Engine/StratusRendererBackend.cpp:1720-1728 | the list loses the light's first occurrence, as EraseFirst |
| ShadowMapCaches.ShadowMapCache.ShadowMapExistsForLight | Source/Engine/StratusRendererBackend.cpp:1730-1733 | true exactly when the light has an entry |
| ShadowMapCaches.ShadowMapCache.AddLightToShadowMapCache | Source/Engine/StratusRendererBackend.cpp:1735-1741 | the light moves to the back of the recency list, as Touch |
| ShadowMapCaches.ShadowMapCache.GetOrAllocateShadowMapHandleForLight | Source/Engine/StratusRendererBackend.cpp:1676-1707 | the in-place cache ends in the state GetOrAllocate gives and returns its handle, which names a shadow map |
| ShadowMapCaches.ShadowMapCache.GetOrAllocateShadowMapForLight | Source/Engine/StratusRendererBackend.cpp:1709-1712 | the shadow map returned is the one behind GetOrAllocate's handle |
| ShadowMapCaches.ShadowMapCache.RemoveLightFromShadowMapCache | Source/Engine/StratusRendererBackend.cpp:1743-1755 | the in-place cache ends in the state Remove gives and stays valid |
| Scheduling.Vpls | Source/Engine/StratusRendererBackend.cpp:959-971 | exactly the frame's virtual lights |
| Scheduling.Regulars | Source/Engine/StratusRendererBackend.cpp:959-971 | exactly the frame's non-virtual lights |
| Scheduling.ShadowCasters | Source/Engine/StratusRendererBackend.cpp:968-970 | exactly the non-virtual lights that cast shadows |
| Scheduling.ClassificationPartitions | Source/Engine/StratusRendererBackend.cpp:959-971 | VPLs and regular lights split the frame's lights: together they are a permutation of it |
| Scheduling.CastersAreRegular | Source/Engine/StratusRendererBackend.cpp:968-970 | shadow casters are the casters among the regular lights |
| Scheduling.InsertByDistance | Source/Engine/StratusRendererBackend.cpp:973-979 | insertion into a sorted list keeps it sorted and adds exactly one element |
| Scheduling.SortByDistance | Source/Engine/StratusRendererBackend.cpp:973-979 | the result is sorted nearest first and a permutation of the input |
| Scheduling.Truncate | Source/Engine/StratusRendererBackend.cpp:981-994 | a list over its cap is cut to its first cap elements; a shorter one is kept whole |
| Scheduling.KeptAreNearest | Source/Engine/StratusRendererBackend.cpp:973-994 | the kept lights are sorted, within the cap, all of them when the list fits, and none dropped is nearer than a kept one |
| Scheduling.SortedSplit | Source/Engine/StratusRendererBackend.cpp:973-979 | in a sorted list nothing after a position is nearer than anything before it |
| Scheduling.CacheFor | Source/Engine/StratusRendererBackend.cpp:1757-1759 | VPLs use the VPL cache, every other light the regular cache |
| Scheduling.Missing | Source/Engine/StratusRendererBackend.cpp:1002-1008 | the enqueued list is no longer than the kept list |
| Scheduling.MissingMembers | Source/Engine/StratusRendererBackend.cpp:1002-1008 | exactly the kept lights that have no shadow map in their own cache are queued |
| Scheduling.DrainCount | Source/Engine/StratusRendererBackend.cpp:1014 | the drain pops at most maxUpdates lights and stops early only when the queue is empty; a non-positive budget pops none |
| Scheduling.Casting | Source/Engine/StratusRendererBackend.cpp:1017 | exactly the popped lights that cast shadows are served |
| Scheduling.OfKind | Source/Engine/StratusRendererBackend.cpp:579-587 | exactly the lights of one kind (virtual or not), for the cache that holds them |
| Scheduling.LightSlots | Source/Engine/StratusRendererBackend.cpp:1613-1638 | no VPL gets a lighting slot |
| Scheduling.LightSlotsMembers | Source/Engine/StratusRendererBackend.cpp:1613-1637 | a regular light gets a lighting slot iff it is in the frame and, if it casts shadows, it got a shadow slot; a VPL never does |
| Scheduling.ShadowSlots | Source/Engine/StratusRendererBackend.cpp:1623-1629 | at most maxShadowLights lights get a shadow slot |
| Scheduling.LightsOf | Source/Engine/StratusRendererBackend.cpp:1614 | the lights of a list of pairs, position by position |
| Scheduling.ShadowSlotsAreNearestCasters | Source/Engine/StratusRendererBackend.cpp:1613-1629 | shadow slots go to the first maxShadowLights shadow casters in list order |
| Scheduling.ShadowSlotsHaveLightSlots | Source/Engine/StratusRendererBackend.cpp:1623-1637 | every light with a shadow slot also has a lighting slot |
| PostFx.Halvings | Source/Engine/StratusRendererBackend.cpp:416-419 | the downsampling chain has at most the budget of sizes, all at least 8 on both sides |
| PostFx.HalvingsNext | Source/Engine/StratusRendererBackend.cpp:416-430 | one more accepted halving extends the chain built so far |
| PostFx.HalvingEntry | Source/Engine/StratusRendererBackend.cpp:416-419 | the i-th downsampling size is the viewport divided by 2^(i+1) with integer division |
| PostFx.HalvingsStopBelowMinimum | Source/Engine/StratusRendererBackend.cpp:419 | a chain shorter than its budget stopped because one more halving fell below 8 |
| PostFx.Reverse | Source/Engine/StratusRendererBackend.cpp:445-448 | the result is the input reversed |
| PostFx.PlanCounts | Source/Engine/StratusRendererBackend.cpp:412-499 | there are at most 8 downsamplings, as many upsamplings (one if none), plus three full-size buffers |
| PostFx.UpsamplesMirror | Source/Engine/StratusRendererBackend.cpp:445-449 | each upsampling size mirrors a downsampling size, and the last is the viewport |
| PostFx.FirstRejected | Source/Engine/StratusRendererBackend.cpp:425-497 | every framebuffer before the index is accepted and the one at it (if any) is rejected |
| PostFx.Built | Source/Engine/StratusRendererBackend.cpp:409-499 | after k framebuffers the buffer list is the plan's first k; valid only if all were built; blur pairs follow the downsamplings |
| PostFx.PlanParts | Source/Engine/StratusRendererBackend.cpp:409-499 | the plan is downsamplings, then upsamplings, then the atmospheric and two FXAA buffers |
| PostFx.BuiltWhileDownsampling | Source/Engine/StratusRendererBackend.cpp:425-428 | a rejected downsampling buffer leaves the earlier ones and marks the backend invalid |
| PostFx.BuiltWhileUpsampling | Source/Engine/StratusRendererBackend.cpp:458-461 | a rejected upsampling buffer leaves all downsamplings and the earlier upsamplings |
| PostFx.BuiltWhileFinishing | Source/Engine/StratusRendererBackend.cpp:471-497 | a rejected atmospheric or FXAA buffer leaves the whole bloom chain |
| PostFx.BuiltComplete | Source/Engine/StratusRendererBackend.cpp:409-499 | when every framebuffer is accepted, the whole plan is built and validity is unchanged |
| PostFx.BlurPairs | Source/Engine/StratusRendererBackend.cpp:434-441 | each downsampling buffer gets two blur buffers of its size |
| PostFx.BuildPostFx | Source/Engine/StratusRendererBackend.cpp:409-499 | the loops build exactly Built up to the first rejected framebuffer |
| PostFx.BuildDownsamples | Source/Engine/StratusRendererBackend.cpp:416-442 | the downsampling loop builds a prefix of the chain, all of it unless a framebuffer is rejected, with two blur buffers each |
| PostFx.BuildUpsamples | Source/Engine/StratusRendererBackend.cpp:445-464 | the upsampling loop builds a prefix of the mirrored chain, stopping at the first rejection |
| PostFx.MirrorSizes | Source/Engine/StratusRendererBackend.cpp:445-448 | the sizes loop lists the downsampling sizes but the last, from the end |
| PostFx.BuildFullSize | Source/Engine/StratusRendererBackend.cpp:466-499 | the three full-size buffers are appended in order until one is rejected |
| PostFx.DownsamplingNext | Source/Engine/StratusRendererBackend.cpp:416-430 | one accepted turn of the downsampling loop keeps its invariant |
| PostFx.DownsamplingDone | Source/Engine/StratusRendererBackend.cpp:416-419 | when the loop's count or size test ends it, the whole chain is built |
| PostFx.ChainNext | Source/Engine/StratusRendererBackend.cpp:451-464 | one accepted turn of the upsampling loop keeps its invariant |
| Backend.BoundShader | Source/Engine/StratusRendererBackend.cpp:643-654 | the shader bound after a history of calls is the last bind, or none after an unbind |
| Backend.WellNestedExtend | Source/Engine/StratusRendererBackend.cpp:643-654 | binding only with nothing bound, and unbinding only the bound shader, keeps the call history well nested |
| Backend.RendererBackend.constructor | Source/Engine/StratusRendererBackend.cpp:59-204 | valid iff every shader compiled and every shadow framebuffer was complete; dummy map in the regular pool when complete; pool sizes count the accepted maps; caches empty |
| Backend.RendererBackend.CreateResources | Source/Engine/StratusRendererBackend.cpp:189-200 | shader validation, the dummy map and both pools, with the same validity and pool counts |
| Backend.RendererBackend.InitPointShadowMaps | Source/Engine/StratusRendererBackend.cpp:206-216 | each pool grows by its accepted shadow maps, no light mapping changes, validity drops on any rejection |
| Backend.RendererBackend.AddShadowMaps | Source/Engine/StratusRendererBackend.cpp:208-215 | one pool grows by the accepted maps in order, the other is untouched |
| Backend.RendererBackend.ValidateAllShaders | Source/Engine/StratusRendererBackend.cpp:234-239 | valid exactly when every shader is valid |
| Backend.RendererBackend.RecompileShaders | Source/Engine/StratusRendererBackend.cpp:249-254 | after recompiling, valid exactly when every recompiled shader is valid |
| Backend.RendererBackend.BindShader | Source/Engine/StratusRendererBackend.cpp:643-647 | the previous shader is unbound first, then s is bound; the history stays well nested |
| Backend.RendererBackend.UnbindShader | Source/Engine/StratusRendererBackend.cpp:649-654 | nothing is bound afterwards; an unbind is recorded only if a shader was bound |
| Backend.RendererBackend.GetSmapCacheForLight | Source/Engine/StratusRendererBackend.cpp:1757-1759 | VPLs use the VPL cache, other lights the regular one |
| Backend.RendererBackend.CreateShadowMap3D | Source/Engine/StratusRendererBackend.cpp:1515-1548 | an incomplete framebuffer returns the null handle and marks the backend invalid; a complete one gets the next handle in the right pool only |
| Backend.RendererBackend.BuildShadowMap | Source/Engine/StratusRendererBackend.cpp:1515-1542 | a depth cube map, plus an RGB diffuse map exactly for VPL maps; made exactly when complete |
| Backend.RendererBackend.LookupShadowmapTexture | Source/Engine/StratusRendererBackend.cpp:1555-1571 | the null handle and unknown handles give no texture; a pooled handle gives its cube map, in either pool |
| Backend.RendererBackend.ShadowMapExistsForLight | Source/Engine/StratusRendererBackend.cpp:1730-1733 | true exactly when the light's own cache maps it |
| Backend.RendererBackend.GetOrAllocateShadowMapHandleForLight | Source/Engine/StratusRendererBackend.cpp:1676-1707 | the light's own cache moves as GetOrAllocate says; the handle names a shadow map |
| Backend.RendererBackend.GetOrAllocateShadowMapForLight | Source/Engine/StratusRendererBackend.cpp:1709-1712 | the map returned is the one behind GetOrAllocate's handle in the light's cache |
| Backend.RendererBackend.RemoveLightFromShadowMapCache | Source/Engine/StratusRendererBackend.cpp:1743-1755 | the light's own cache moves as Remove says |
| Backend.RendererBackend.UpdatePointLights | Source/Engine/StratusRendererBackend.cpp:949-1023 | the three lists are classified, sorted, capped; the queue loses the drained prefix; each cache ends as AllocateAll over the served casters of its kind |
| Backend.RendererBackend.QueueFrameLights | Source/Engine/StratusRendererBackend.cpp:959-1008 | the three kept lists, and the queue extended by the kept casters and VPLs without a shadow map |
| Backend.RendererBackend.EnqueueMissing | Source/Engine/StratusRendererBackend.cpp:1002-1008 | the queue grows by exactly the lights missing a shadow map, in order |
| Backend.RendererBackend.DrainShadowUpdates | Source/Engine/StratusRendererBackend.cpp:1014-1023 | DrainCount lights are popped and each cache ends as AllocateAll over the popped shadow casters of its kind |
| Backend.RendererBackend.DrainLoop | Source/Engine/StratusRendererBackend.cpp:1014-1023 | the remaining turns of the drain reach its final state |
| Backend.RendererBackend.DrainOne | Source/Engine/StratusRendererBackend.cpp:1015-1023 | one turn pops a light and, if it casts shadows, allocates for it in its own cache |
| Backend.RendererBackend.PostFxState | Source/Engine/StratusRendererBackend.cpp:409-499 | the post-processing fields read as one value |
| Backend.RendererBackend.UpdateWindowDimensions | Source/Engine/StratusRendererBackend.cpp:287-407 | nothing happens unless the viewport is dirty; a rejected screen buffer makes the backend invalid with empty lists; otherwise the post-FX setup is Built |
| Backend.RendererBackend.InitializePostFxBuffers | Source/Engine/StratusRendererBackend.cpp:409-499 | the fields equal Built up to the first rejected framebuffer |
| Backend.RendererBackend.InitLights | Source/Engine/StratusRendererBackend.cpp:1598-1651 | the lighting and shadow slots are LightSlots and ShadowSlots; the cache moves as AllocateAll over the shadow-lit lights; each shadow slot shows its light's cube map; the dummy map's texture is looked up |
| Backend.RendererBackend.AssignSlots | Source/Engine/StratusRendererBackend.cpp:1613-1638 | the remaining turns of the slot loop finish the slot lists |
| Backend.RendererBackend.AssignSlot | Source/Engine/StratusRendererBackend.cpp:1614-1637 | one turn: VPLs are skipped, a caster without shadow room is skipped, others take a slot |
| Backend.RendererBackend.GrantShadowSlot | Source/Engine/StratusRendererBackend.cpp:1624-1628 | a caster gets the next shadow slot and its shadow map from the regular cache |
| Backend.RendererBackend.ClearLightData | Source/Engine/StratusRendererBackend.cpp:579-587 | one turn removes the next light from its own cache |
| Backend.RendererBackend.ClearRemovedLightData | Source/Engine/StratusRendererBackend.cpp:579-587 | every removed light is forgotten by its own cache, regular and VPL |
| Backend.CountTrue | Source/Engine/StratusRendererBackend.cpp:206-216 | the number of accepted maps equals the number requested exactly when all are accepted |
| Backend.Served | Source/Engine/StratusRendererBackend.cpp:1014-1023 | the lights served among the first k popped are no more than k |
| Backend.ServedMembers | Source/Engine/StratusRendererBackend.cpp:1014-1023 | exactly the shadow-casting lights of one kind among the first k popped are served |
| Backend.Updated | Source/Engine/StratusRendererBackend.cpp:1014-1023 | the lights given a shadow map this frame: shadow casters of the kind among the popped prefix |
| Backend.SlotsPrefixNext | Source/Engine/StratusRendererBackend.cpp:1613-1638 | one turn of the slot loop extends the slot lists as LightSlots and ShadowSlots prescribe |
| Backend.SlotsPrefixGranted | Source/Engine/StratusRendererBackend.cpp:1623-1637 | a caster that finds a shadow slot free takes a lighting slot and the next shadow slot, so the frame has at least one shadow slot |
| Backend.SlotsPrefixLitOnly | Source/Engine/StratusRendererBackend.cpp:1631-1637 | a regular light that casts no shadows takes a lighting slot and no shadow slot |
| Backend.SlotsBoundGrow | Source/Engine/StratusRendererBackend.cpp:1627 | a new allocation does not change the shadow maps already bound to earlier slots |
| Backend.SortAndCut | Source/Engine/StratusRendererBackend.cpp:973-994 | sorting then truncating gives Kept |
| Backend.ClassifyLights | Source/Engine/StratusRendererBackend.cpp:959-971 | the classification loop yields Regulars, ShadowCasters and Vpls |
| FrameBuffers.AttachOne | Source/Engine/StratusFrameBuffer.cpp:120-165 | a depth-like texture throws exactly when one is already attached; colour attachments stay numbered in order |
| FrameBuffers.AttachAll | Source/Engine/StratusFrameBuffer.cpp:117-166 | colour attachments are numbered 0, 1, ... in order |
| FrameBuffers.ColorTextures | Source/Engine/StratusFrameBuffer.cpp:152-165 | exactly the colour textures of the list |
| FrameBuffers.DepthCount | Source/Engine/StratusFrameBuffer.cpp:120-150 | the depth-like textures of the list are counted |
| FrameBuffers.AttachAllSpec | Source/Engine/StratusFrameBuffer.cpp:111-185 | throws iff two or more depth-like textures; otherwise every colour texture in order and the depth-like one, if any |
| FrameBuffers.AttachAllStopsAtThrow | Source/Engine/StratusFrameBuffer.cpp:127-140 | after a throw, later textures change nothing |
| FrameBuffers.AttachAllColor | Source/Engine/StratusFrameBuffer.cpp:152-165 | a colour texture is appended as the next attachment |
| FrameBuffers.AttachAllDepth | Source/Engine/StratusFrameBuffer.cpp:120-150 | the first depth-like texture becomes the depth-stencil attachment |
| FrameBuffers.AttachAllThrows | Source/Engine/StratusFrameBuffer.cpp:126-140 | a second depth (or depth-stencil) texture throws the matching error |
| FrameBuffers.BlitMask | Source/Engine/StratusFrameBuffer.cpp:194-197 | each mask bit is set exactly when its buffer is requested, and no other bit |
| FrameBuffers.BlitFilter | Source/Engine/StratusFrameBuffer.cpp:198 | nearest exactly when asked for, linear otherwise |
| FrameBuffers.ToSize | Source/Engine/StratusFrameBuffer.cpp:86 | a non-negative int converts unchanged, a negative one to a huge size_t |
| FrameBuffers.AsWrittenCheckAdmitsOnePastEnd | Source/Engine/StratusFrameBuffer.cpp:51-52 | the check as written accepts an index equal to the attachment count, and that is the only index past the end it accepts |
| FrameBuffers.ColorIndexCheckIsExact | Source/Engine/StratusFrameBuffer.cpp:51-52 | the corrected check accepts exactly the valid indices and rejects all the as-written one rejects |
| FrameBuffers.FrameBufferImpl.constructor | Source/Engine/StratusFrameBuffer.cpp:17 | a new object has no attachments, is unbound and not valid |
| FrameBuffers.FrameBufferImpl.Bind | Source/Engine/StratusFrameBuffer.cpp:75-77 | the framebuffer is bound at GL_FRAMEBUFFER |
| FrameBuffers.FrameBufferImpl.Unbind | Source/Engine/StratusFrameBuffer.cpp:79-83 | the framebuffer is unbound |
| FrameBuffers.FrameBufferImpl.Clear | Source/Engine/StratusFrameBuffer.cpp:37-48 | colour, depth and stencil are cleared and the binding is as before; it binds itself only if unbound |
| FrameBuffers.FrameBufferImpl.ClearColorLayer | Source/Engine/StratusFrameBuffer.cpp:50-60 | succeeds exactly for an index within the colour attachments, on that texture; otherwise the out-of-range error |
| FrameBuffers.FrameBufferImpl.ClearColorLayerAsWritten | Source/Engine/StratusFrameBuffer.cpp:50-60 | with the check as written, the one index it cannot be called with is the count itself (the read past the end); every other index succeeds exactly within the attachments |
| FrameBuffers.FrameBufferImpl.ClearDepthStencilLayer | Source/Engine/StratusFrameBuffer.cpp:62-73 | succeeds exactly when a depth-stencil texture is attached |
| FrameBuffers.FrameBufferImpl.SetColorTextureLayer | Source/Engine/StratusFrameBuffer.cpp:85-96 | succeeds exactly for 0 <= index < count (a negative int wraps to a huge size_t); otherwise the out-of-range error |
| FrameBuffers.FrameBufferImpl.SetDepthTextureLayer | Source/Engine/StratusFrameBuffer.cpp:98-109 | succeeds exactly when a depth texture is attached |
| FrameBuffers.FrameBufferImpl.SetAttachments | Source/Engine/StratusFrameBuffer.cpp:111-185 | a second call throws and changes nothing; otherwise the attachments are AttachAll's, draw buffers match the colours, and valid iff no throw and complete |
| FrameBuffers.FrameBufferImpl.CopyFrom | Source/Engine/StratusFrameBuffer.cpp:191-200 | the blit reads the other framebuffer into this one with the requested mask and filter |
| FrameBuffers.FrameBuffer.Empty | Source/Engine/StratusFrameBuffer.cpp:221 | the default framebuffer has no object and is not valid |
| FrameBuffers.FrameBuffer.Wrap | Source/Engine/StratusFrameBuffer.cpp:222-224 | the handle holds the given object |
| FrameBuffers.FrameBuffer.IsValid | Source/Engine/StratusFrameBuffer.cpp:252 | a valid handle has an object behind it |
| FrameBuffers.NewFrameBuffer | Source/Engine/StratusFrameBuffer.cpp:222-224 | construction fails iff two depth-like textures are given; otherwise a fresh object with the textures attached |
| LegacySpec.NoteLight | src/Renderer.cpp:1166-1183 | a new light is dirty; a seen light becomes dirty iff it was, has no shadow map, or moved past the threshold; only then is its position re-recorded |
| LegacySpec.StillLightStaysClean | src/Renderer.cpp:1169-1183 | a clean light with a shadow map that did not move keeps its record unchanged |
| LegacySpec.NoteEntity | src/Renderer.cpp:446-467 | a new entity is dirty; a seen entity is dirty iff position, scale or rotation moved past the threshold, and only those are re-recorded |
| LegacySpec.EntitySettles | src/Renderer.cpp:449-467 | an entity seen again unchanged becomes clean |
| LegacySpec.Visited | src/Renderer.cpp:785-788 | the shadow loop reaches the first maxUpdates + 1 casters, because its test is "more than" |
| LegacySpec.KeptCastersAllVisited | src/Renderer.cpp:766-788 | with the casters cut to 8 and a budget of 8, the loop visits all of them |
| LegacySpec.Pending | src/Renderer.cpp:792-794 | exactly the visited lights that are dirty, or lit an entity that moved, are redrawn |
| LegacySpec.Cleared | src/Renderer.cpp:797 | clearing dirty flags keeps the set of known lights |
| LegacySpec.ShadowPassCleansVisited | src/Renderer.cpp:785-810 | after the pass a visited caster is dirty iff it was rendered and had no shadow map before the pass (_getShadowMapHandleForLight raises the flag just cleared); every other light keeps its record |
| LegacySpec.Touched | src/Renderer.cpp:770-779 | lights marked by a dirty entity are among the kept casters |
| LegacySpec.EmptyStore | src/Renderer.cpp:48-162 | the empty texture store satisfies its invariant |
| LegacySpec.Load | src/Renderer.cpp:1077-1090 | a known file returns its handle unchanged; a new file consumes a handle, is stored on success and returns -1 on failure |
| LegacySpec.LoadKeepsInv | src/Renderer.cpp:1077-1090 | loading keeps each texture filed under its own handle and file, and handles below the next |
| LegacySpec.LoadTwiceSameHandle | src/Renderer.cpp:1078-1079 | loading the same file again returns the same handle and changes nothing |
| LegacySpec.LoadThenLookup | src/Renderer.cpp:1130-1152 | a freshly loaded texture is what its handle looks up |
| LegacySpec.Lookup | src/Renderer.cpp:1130-1152 | -1 gives nothing; an unknown texture handle falls back to the shadow maps; a loaded texture is returned; an unloaded one is reloaded |
| LegacySpec.LookupKeepsInv | src/Renderer.cpp:1130-1152 | lookup keeps the store's invariant |
| LegacySpec.InvalidateAll | src/Renderer.cpp:1120-1128 | every by-file record is unloaded and emptied; the by-handle records are untouched |
| LegacySpec.InvalidatedTextureStillServed | src/Renderer.cpp:1120-1152 | after invalidation, looking up a loaded handle still serves the old texture |
| LegacySpec.InvalidateAllFixed | src/Renderer.cpp:1120-1128 | corrected invalidation unloads both the by-file and the by-handle records |
| LegacySpec.InvalidatedTextureReloaded | src/Renderer.cpp:1120-1152 | after corrected invalidation every lookup reloads the image |
| LegacySpec.DirtyAfter | src/Renderer.cpp:1238-1240 | requesting shadow maps keeps the set of seen lights |
| LegacySpec.DirtyAfterSnoc | src/Renderer.cpp:1238-1240 | one more request marks its light dirty iff it had no map yet |
| LegacySpec.AllocateAllKeys | src/Renderer.cpp:1233-1266 | after a run, the lights with a map are the old ones and the requested ones |
| LegacySpec.PassFlags | src/Renderer.cpp:796-810 | the pass keeps the set of known lights |
| LegacySpec.PassFlagsSnoc | src/Renderer.cpp:796-810 | one more rendered light has its flag cleared, then raised iff it had no map before its request |
| LegacySpec.PassFlagsFrame | src/Renderer.cpp:796-810 | a light that is not rendered keeps its record; a rendered one keeps all but its flag |
| LegacySpec.PassFlagsMarks | src/Renderer.cpp:796-810 | with distinct lights, a rendered light ends dirty iff it had no map at the start, and no other light changes |
| LegacySpec.PassFlagsAsDirtyAfter | src/Renderer.cpp:796-810 | with distinct lights, the pass is clearing the rendered flags and then requesting their maps |
| LegacySpec.PendingNoDuplicates | src/Renderer.cpp:785-797 | distinct casters give distinct rendered lights |
| LegacySpec.DirtyAfterMarks | src/Renderer.cpp:1238-1240 | after a run, a seen light is dirty iff it was, or it was requested without having a map |
| LegacySpec.Reached | src/Renderer.cpp:426-474 | every node reached has a bucket for its light properties |
| LegacySpec.ReachedChildren | src/Renderer.cpp:471-473 | every node reached through the children has a bucket |
| LegacySpec.AddAll | src/Renderer.cpp:426-467 | a run of node additions creates no bucket |
| LegacySpec.AddAllAppend | src/Renderer.cpp:471-473 | adding two runs one after the other is adding their concatenation |
| LegacySpec.AddedIsPreorder | src/Renderer.cpp:426-474 | adding a drawable adds, one by one, the nodes reached in pre-order: a node before its children, the children in order, and nothing below a node with no bucket |
| LegacySpec.AddedChildrenIsPreorder | src/Renderer.cpp:471-473 | adding the first k children adds the nodes they reach, in order |
| LegacySpec.AddAllBuckets | src/Renderer.cpp:427-437 | each bucket gains the entities of its nodes, in order |
| LegacySpec.AddAllInteracting | src/Renderer.cpp:438-440 | the dynamic nodes join the light-interacting entities, in order |
| LegacySpec.AddAllRecords | src/Renderer.cpp:444-467 | every added entity gets a motion record and no other record changes |
| LegacySpec.AddedLists | src/Renderer.cpp:426-474 | after adding a drawable the buckets are the same, each gains its reached entities in pre-order, the reached dynamic ones join the interacting list, exactly the reached entities gain records and other records are unchanged |
| LegacySpec.Descend | src/Renderer.cpp:300-315 | the downsampling loop builds a prefix of the halving chain, all of it unless a buffer is rejected |
| LegacySpec.Climb | src/Renderer.cpp:317-333 | the doubling loop builds successive 32-bit doublings until one side matches the window, a buffer is rejected, or the bound runs out |
| LegacySpec.LegacyPostFx | src/Renderer.cpp:293-334 | downsampling sizes are the halving chain; a completed run ends on the window size; upsample count is the rest of the buffers |
| LegacySpec.DoublingsVanish | src/Renderer.cpp:318-319 | after 32 doublings a 32-bit size is zero |
| LegacySpec.ClimbDivergesForever | src/Renderer.cpp:317-333 | if the bounded loop runs out, no later doubling ever matches the window |
| LegacySpec.ClimbNoReach | src/Renderer.cpp:317-333 | with no matching doubling and every buffer accepted the loop never ends |
| LegacySpec.NeverThousandFrom15 | src/Renderer.cpp:318-332 | doubling 15 never gives 1000 |
| LegacySpec.ThousandSquareDiverges | src/Renderer.cpp:293-334 | for a 1000 by 1000 window the doubling loop never stops |
| LegacyRenderer.AcceptedCount | src/Renderer.cpp:157-161 | the number of accepted maps equals those requested exactly when all are accepted |
| LegacyRenderer.PassCasters | src/Renderer.cpp:748-768 | at most 8 casters, each a shadow-casting light of the frame |
| LegacyRenderer.PassCastersFromFrame | src/Renderer.cpp:748-768 | every kept caster is one of the frame's lights |
| LegacyRenderer.ShadowPrefixNext | src/Renderer.cpp:1191-1209 | one turn of the slot loop extends the shadow slots as ShadowSlots prescribes |
| LegacyRenderer.SlotTexturesGrow | src/Renderer.cpp:1205 | a new allocation does not change the textures already bound to earlier slots |
| LegacyRenderer.ShadowPassFlagUp | src/Renderer.cpp:792-794 | a caster whose flag is up mid-pass was dirty, or touched, when the pass began |
| LegacyRenderer.ShadowPassRendered | src/Renderer.cpp:792-810 | a caster that needs rendering extends the rendered list, the cache moves by its map request and its flag as PassFlags says |
| LegacyRenderer.ShadowPassSkipped | src/Renderer.cpp:792-794 | a caster that needs no rendering changes nothing |
| LegacyRenderer.BuildLegacyPostFx | src/Renderer.cpp:293-334 | the loops compute LegacyPostFx |
| LegacyRenderer.Downsample | src/Renderer.cpp:300-315 | the downsampling loop computes Descend |
| LegacyRenderer.DescendNext | src/Renderer.cpp:300-315 | one turn of the downsampling loop keeps its invariant |
| LegacyRenderer.Upsample | src/Renderer.cpp:317-333 | the bounded doubling loop computes Climb |
| LegacyRenderer.ClimbNext | src/Renderer.cpp:317-333 | one turn of the doubling loop keeps its invariant |
| LegacyRenderer.Renderer.Store | src/Renderer.cpp:1077-1152 | the texture fields read as one value |
| LegacyRenderer.Renderer.CubeMaps | src/Renderer.cpp:1136-1137 | the cube map behind each pooled shadow-map handle |
| LegacyRenderer.Renderer.constructor | src/Renderer.cpp:48-162 | no context: invalid and no maps; otherwise both entity buckets, valid iff shaders and every map are fine, dummy map set iff accepted, no light or texture known |
| LegacyRenderer.Renderer.SetUp | src/Renderer.cpp:118-161 | entity buckets, the dummy map and the pool, with validity and the pool size as in the constructor |
| LegacyRenderer.Renderer.CreateShadowMaps | src/Renderer.cpp:159-161 | the pool grows by the accepted maps; validity drops on any rejection |
| LegacyRenderer.Renderer.CreateShadowMap3D | src/Renderer.cpp:1104-1118 | an incomplete framebuffer returns -1, marks the renderer invalid and uses no handle; a complete one takes the next handle |
| LegacyRenderer.Renderer.GetShadowMapHandleForLight | src/Renderer.cpp:1233-1266 | the cache moves as GetOrAllocate says; the light becomes dirty iff it had no map |
| LegacyRenderer.Renderer.AddPointLight | src/Renderer.cpp:1155-1184 | the light is appended and its record becomes NoteLight of the old one |
| LegacyRenderer.Renderer.Lists | src/Renderer.cpp:426-474 | the entity fields read as one value |
| LegacyRenderer.Renderer.AddDrawableNode | src/Renderer.cpp:426-467 | a node with an unknown bucket is ignored; otherwise it is appended, added to the light-interacting list iff DYNAMIC, and its record becomes NoteEntity |
| LegacyRenderer.Renderer.UpdateMotion | src/Renderer.cpp:449-466 | the in-place update of a seen entity's record computes NoteEntity |
| LegacyRenderer.Renderer.AddDrawable | src/Renderer.cpp:426-474 | the entity fields move as Added: the node, then its child nodes recursively, so AddedLists describes the result |
| LegacyRenderer.Renderer.RenderShadows | src/Renderer.cpp:740-810 | the lights redrawn are the pending ones among the visited casters; the cache moves as AllocateAll over them and the flags as PassFlags |
| LegacyRenderer.Renderer.ShadowUpdates | src/Renderer.cpp:785-810 | the shadow loop redraws Pending over Visited, requests their maps in that order and moves the flags as PassFlags |
| LegacyRenderer.Renderer.ShadowLoop | src/Renderer.cpp:785-810 | the remaining turns of the loop finish the pass |
| LegacyRenderer.Renderer.ShadowTurn | src/Renderer.cpp:786-810 | one turn renders the caster iff it is dirty or touched |
| LegacyRenderer.Renderer.RenderShadow | src/Renderer.cpp:796-810 | a rendered light's flag is cleared, then its map is requested, which raises the flag again iff it had none |
| LegacyRenderer.Renderer.LoadTexture | src/Renderer.cpp:1077-1090 | the store moves as Load says and returns its handle |
| LegacyRenderer.Renderer.LookupTexture | src/Renderer.cpp:1130-1152 | the store moves as Lookup says and returns its texture |
| LegacyRenderer.Renderer.InvalidateAllTextures | src/Renderer.cpp:1120-1128 | the store becomes InvalidateAll of the old one |
| LegacyRenderer.Renderer.SetPerspectiveData | src/Renderer.cpp:336-343 | a field of view below 25 changes nothing; otherwise all three values are taken |
| LegacyRenderer.Renderer.SetWindowDimensions | src/Renderer.cpp:221-291 | an unchanged size or a negative side is ignored; otherwise the size is taken and buffers regenerated |
| LegacyRenderer.Renderer.RegenerateBuffers | src/Renderer.cpp:263-290 | an incomplete G-buffer or lighting framebuffer makes the renderer invalid; otherwise the bloom buffers are rebuilt |
| LegacyRenderer.Renderer.InitializePostFxBuffers | src/Renderer.cpp:293-334 | the bloom fields equal LegacyPostFx for the window |
| LegacyRenderer.Renderer.InitLights | src/Renderer.cpp:1186-1231 | every light gets a slot; shadow slots are ShadowSlots; the cache moves as AllocateAll and dirty flags as DirtyAfter; each slot shows its map; the dummy only with no shadow slot |
| LegacyRenderer.Renderer.AssignSlots | src/Renderer.cpp:1191-1209 | the remaining turns of the slot loop finish the slot lists |
| LegacyRenderer.Renderer.AssignSlot | src/Renderer.cpp:1192-1208 | one turn gives the light a slot and, if it casts shadows and room is left, a shadow slot |
| LegacyRenderer.Renderer.GrantShadowSlot | src/Renderer.cpp:1202-1206 | a caster gets the next shadow slot and its map, and is marked dirty iff it had none |
| LegacyRenderer.Renderer.LookupShadowMap | src/Renderer.cpp:1130-1138 | looking up a shadow map's handle gives its cube map and leaves the texture records as they were |
| LegacyRenderer.SlotsDone | src/Renderer.cpp:1191-1209 | once the slot loop has passed every light, the shadow slots are ShadowSlots, the cache is AllocateAll over them and the dirty flags are DirtyAfter |

## Left out

- OpenGL: every driver call (texture and framebuffer creation, binding of samplers, uniform uploads, draws, blits) is left out. A framebuffer's completeness and a shader's compile result are parameters.
- Floating point: positions, scales and rotations are vectors of reals, and the 0.25 motion threshold is compared on their squared distance (MovedFrom), so no square root is taken. Distances to the viewer are given with each light as integers. The radius test between an entity and a light is the `reaches` set. The camera is left out.
- Image loading: `_loadTexture` is not part of this model. Its result is the `image` parameter.
- Header defaults: `_nextTextureHandle`, the field of view, near and far planes, the shadow-map resolution and the pool sizes are constructor parameters, because the headers are not part of this model. The old renderer's `_isValid` starts true. The bucket flags FLAT = 2 and DYNAMIC = 4 are assumed values. A texture entry created by `loadTexture` is taken as loaded, since the default of its flag is declared in a header.
- Pool order: the container that holds the shadow-map pool is declared in a header not part of this model. Its iteration order is taken as insertion order.
- Sorting: `std::sort` is not stable. The model fixes one admissible order, an insertion sort that keeps equal distances in input order.
- Backend.RendererBackend.DrainShadowUpdates: the drain loop is written as tail recursion (DrainLoop), one call per turn.
- Backend.RendererBackend.InitLights: the slot loop is written as tail recursion (AssignSlots).
- LegacyRenderer.Renderer.InitLights: the slot loop is written as tail recursion (AssignSlots).
- LegacyRenderer.Renderer.ShadowUpdates: the shadow loop of `end()` is written as tail recursion (ShadowLoop), one call per turn.
- LegacyRenderer.Renderer.AddDrawable: the model matrix each node accumulates from its parent (src/Renderer.cpp:434-438) is not modelled; the order and the records are.
- FrameBuffers.FrameBufferImpl.ClearColorLayer: uses the corrected range check. The check as written lets an index equal to the count through to an out-of-bounds access (see Findings). SetColorTextureLayer does the same.
- Post-processing: both renderers' loops compute the buffer lists as values, and the fields are assigned once. Gaussian blur buffers are not checked for completeness, as in the source.
- LegacySpec.LegacyPostFx: a doubling loop that never meets the window keeps only its first 32 doublings and reports Diverges. The lemmas prove that no later doubling could end it.
- LegacyRenderer.Renderer.InitLights: requires non-virtual lights. The old renderer only adds point and spot lights (`addPointLight` asserts this at src/Renderer.cpp:1156).
- Not modelled, beyond the shadow maps and slots above:
  - the per-frame draw calls of both renderers;
  - instanced mesh gathering;
  - the VPL culling and global-illumination compute passes;
  - the atmospheric and SSAO passes.
- Source/StratusEntityManager.cpp is not part of this model.
- Not modelled, by name: the `FrameBufferImpl` destructor, `_bind`, `FrameBuffer::bind`/`unbind` forwarding, the other resource cleanup, `loadModel`, the camera setters, and the old renderer's matrix recalculation.

## Findings

| source | as written | input that shows it | evidently intended | confidence | as-written member | corrected member |
|---|---|---|---|---|---|---|
| Source/Engine/StratusRendererBackend.cpp:1691-1699 | eviction (here and in the old renderer, src/Renderer.cpp lines 1250-1256) pops the oldest light from the recency list and reuses its handle, but leaves its entry in the light-to-map table | two shadow maps; requests for lights a, b, c, then a: the second request for a finds its stale entry and returns the handle c now holds | the evicted light loses its map entry, so it is allocated anew (taking b's map, the least recently used) | high, not executed | LruSpec.StaleEntrySharesHandle | LruSpec.FixedScenarioEvictsLeastRecent |
| Source/Engine/StratusFrameBuffer.cpp:51-52 | `ClearColorLayer` (and `SetColorTextureLayer` at line 86) rejects the colour index only when it is greater than the attachment count | an index equal to the number of colour attachments passes the check and indexes one past the end | reject indices greater than or equal to the count | high, not executed | FrameBuffers.FrameBufferImpl.ClearColorLayerAsWritten | FrameBuffers.FrameBufferImpl.ClearColorLayer |
| src/Renderer.cpp:317-333 | the upsampling loop doubles the last halved size until a side equals the window's | a 1000 by 1000 window: halving ends at 15, and doubling 15 (with 32-bit wrap-around) never gives 1000, so the loop never ends unless the driver rejects a framebuffer | upsample back through the downsampling sizes to the window, as the newer backend does | high, not executed | LegacySpec.ThousandSquareDiverges | PostFx.UpsamplesMirror |
| src/Renderer.cpp:1120-1152 | `invalidateAllTextures` unloads the by-file records only, while `_lookupTexture` reads the by-handle records | load a texture, invalidate all, look its handle up: the old texture is still returned and never reloaded | unload the by-handle records too, so the next lookup reloads | medium, not executed | LegacySpec.InvalidatedTextureStillServed | LegacySpec.InvalidatedTextureReloaded |

The old renderer's shadow loop tests "more than the budget" (src/Renderer.cpp:787), so it would visit one light more than its budget. The casters are cut to the budget first (lines 766-767), which hides this: see LegacySpec.Visited and LegacySpec.KeptCastersAllVisited.
