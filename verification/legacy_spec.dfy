/**
 * The older forward/deferred renderer (src/Renderer.cpp), as values: how it
 * tracks lights and entities that moved, which lights its shadow pass
 * re-renders, its texture handle cache, the sizes of its bloom buffers and
 * the dirty flags its shadow-map allocation raises. The class in
 * LegacyRenderer keeps this state in fields and is proved against these
 * functions.
 */
module LegacySpec {
  import opened Wrappers
  import opened LruSpec
  import opened FrameBuffers
  import opened PostFx

  // ---------------------------------------------------------------------------
  // Motion tracking

  datatype Vec3 = Vec3(x: real, y: real, z: real)

  const ORIGIN: Vec3 := Vec3(0.0, 0.0, 0.0)

  function SquaredDistance(a: Vec3, b: Vec3): real {
    (a.x - b.x) * (a.x - b.x) + (a.y - b.y) * (a.y - b.y) + (a.z - b.z) * (a.z - b.z)
  }

  /** Moves up to this distance are ignored. */
  const MOVE_THRESHOLD: real := 0.25

  /** a is more than the threshold away from b (compared on squares, which is exact on reals). */
  predicate MovedFrom(a: Vec3, b: Vec3) {
    SquaredDistance(a, b) > MOVE_THRESHOLD * MOVE_THRESHOLD
  }

  /** What the renderer remembers about a light or an entity between frames. */
  datatype EntityStateInfo = EntityStateInfo(lastPos: Vec3, lastScale: Vec3, lastRotation: Vec3, dirty: bool)

  /**
   * The record addPointLight leaves for a light at pos, given the previous
   * record (None for a light never seen) and whether the light has a shadow map.
   */
  function NoteLight(seen: Option<EntityStateInfo>, hasShadowMap: bool, pos: Vec3): (r: EntityStateInfo)
    ensures !MovedFrom(pos, r.lastPos)
    ensures seen.None? ==> r.dirty && r.lastPos == pos
    ensures seen.Some? ==>
              && (r.dirty <==> seen.value.dirty || !hasShadowMap || MovedFrom(pos, seen.value.lastPos))
              && (r.lastPos == pos || r.lastPos == seen.value.lastPos)
              && r.lastScale == seen.value.lastScale && r.lastRotation == seen.value.lastRotation
  {
    match seen
    case None => EntityStateInfo(pos, ORIGIN, ORIGIN, true)
    case Some(info) =>
      var flagged := if !hasShadowMap then info.(dirty := true) else info;
      if MovedFrom(pos, info.lastPos) then flagged.(lastPos := pos, dirty := true) else flagged
  }

  /**
   * A light that has a shadow map, is clean and has not moved past the
   * threshold keeps its record unchanged; in particular the recorded
   * position does not creep along with small moves.
   */
  lemma StillLightStaysClean(info: EntityStateInfo, pos: Vec3)
    requires !info.dirty && !MovedFrom(pos, info.lastPos)
    ensures NoteLight(Some(info), true, pos) == info
  {
  }

  /**
   * The record _addDrawable leaves for an entity: each of position, scale and
   * rotation is re-recorded when it changed by more than the threshold, and
   * the entity is dirty exactly when one of them did (or it is new).
   */
  function NoteEntity(seen: Option<EntityStateInfo>, pos: Vec3, scale: Vec3, rotation: Vec3): (r: EntityStateInfo)
    ensures !MovedFrom(pos, r.lastPos) && !MovedFrom(scale, r.lastScale) && !MovedFrom(rotation, r.lastRotation)
    ensures seen.None? ==> r == EntityStateInfo(pos, scale, rotation, true)
    ensures seen.Some? ==>
              (r.dirty <==> MovedFrom(pos, seen.value.lastPos) || MovedFrom(scale, seen.value.lastScale)
                            || MovedFrom(rotation, seen.value.lastRotation))
  {
    match seen
    case None => EntityStateInfo(pos, scale, rotation, true)
    case Some(info) =>
      var moved := MovedFrom(pos, info.lastPos);
      var scaled := MovedFrom(scale, info.lastScale);
      var rotated := MovedFrom(rotation, info.lastRotation);
      EntityStateInfo(if moved then pos else info.lastPos,
                      if scaled then scale else info.lastScale,
                      if rotated then rotation else info.lastRotation,
                      moved || scaled || rotated)
  }

  /** Unlike a light's, an entity's flag lasts one frame: seen again unchanged, it is clean. */
  lemma EntitySettles(seen: Option<EntityStateInfo>, pos: Vec3, scale: Vec3, rotation: Vec3)
    ensures var r := NoteEntity(seen, pos, scale, rotation);
            NoteEntity(Some(r), pos, scale, rotation) == r.(dirty := false)
  {
  }

  // ---------------------------------------------------------------------------
  // Adding a drawable and its child nodes

  /** An entity's light properties: a 32-bit flag word. */
  newtype LightProperties = x: int | 0 <= x < 0x1_0000_0000

  /** Light-property flags; their values are declared in a header that is not part of this model. */
  const FLAT: LightProperties := 2
  const DYNAMIC: LightProperties := 4

  /** The bitwise and of two flag words is not zero. */
  predicate HasFlag(p: LightProperties, flag: LightProperties) {
    (p as bv32) & (flag as bv32) != 0
  }

  /** A render entity with its light properties, placement and child nodes. */
  datatype Drawable = Drawable(entity: Entity, properties: LightProperties, pos: Vec3, scale: Vec3, rotation: Vec3,
                               nodes: seq<Drawable>)

  /** The frame's entity lists by light properties, its light-interacting entities and the motion records. */
  datatype DrawLists = DrawLists(entities: map<LightProperties, seq<Entity>>, interacting: seq<Entity>,
                                 seen: map<Entity, EntityStateInfo>)

  /** One node added on its own: appended to its bucket, to the interacting list if dynamic, and noted. */
  function AddNode(f: DrawLists, d: Drawable): DrawLists
    requires d.properties in f.entities
  {
    DrawLists(f.entities[d.properties := f.entities[d.properties] + [d.entity]],
              f.interacting + (if HasFlag(d.properties, DYNAMIC) then [d.entity] else []),
              f.seen[d.entity := NoteEntity(if d.entity in f.seen then Some(f.seen[d.entity]) else None,
                                            d.pos, d.scale, d.rotation)])
  }

  /** _addDrawable: nothing if the node's bucket is missing; otherwise the node, then each child in order. */
  function Added(f: DrawLists, d: Drawable): DrawLists
    decreases d, |d.nodes| + 1
  {
    if d.properties !in f.entities then f else AddedChildren(AddNode(f, d), d, |d.nodes|)
  }

  /** The first k children of d added in turn. */
  function AddedChildren(f: DrawLists, d: Drawable, k: nat): DrawLists
    requires k <= |d.nodes|
    decreases d, k
  {
    if k == 0 then f else Added(AddedChildren(f, d, k - 1), d.nodes[k - 1])
  }

  /** The nodes that reach a bucket, in pre-order: a node with an unknown bucket hides its whole subtree. */
  function Reached(keys: set<LightProperties>, d: Drawable): (r: seq<Drawable>)
    ensures forall n :: n in r ==> n.properties in keys
    decreases d, |d.nodes| + 1
  {
    if d.properties !in keys then [] else [d] + ReachedChildren(keys, d, |d.nodes|)
  }

  function ReachedChildren(keys: set<LightProperties>, d: Drawable, k: nat): (r: seq<Drawable>)
    requires k <= |d.nodes|
    ensures forall n :: n in r ==> n.properties in keys
    decreases d, k
  {
    if k == 0 then [] else ReachedChildren(keys, d, k - 1) + Reached(keys, d.nodes[k - 1])
  }

  /** A flat list of nodes, each with a known bucket, added one after another. */
  function AddAll(f: DrawLists, ns: seq<Drawable>): (r: DrawLists)
    requires forall n :: n in ns ==> n.properties in f.entities
    ensures r.entities.Keys == f.entities.Keys
    decreases |ns|
  {
    if ns == [] then f else AddAll(AddNode(f, ns[0]), ns[1..])
  }

  /** The entities of the nodes with properties p, in order. */
  function EntitiesWith(ns: seq<Drawable>, p: LightProperties): seq<Entity>
    decreases |ns|
  {
    if ns == [] then [] else (if ns[0].properties == p then [ns[0].entity] else []) + EntitiesWith(ns[1..], p)
  }

  /** The entities of the dynamic nodes, in order. */
  function DynamicEntities(ns: seq<Drawable>): seq<Entity>
    decreases |ns|
  {
    if ns == [] then [] else (if HasFlag(ns[0].properties, DYNAMIC) then [ns[0].entity] else []) + DynamicEntities(ns[1..])
  }

  lemma {:induction false} AddAllAppend(f: DrawLists, a: seq<Drawable>, b: seq<Drawable>)
    requires forall n :: n in a + b ==> n.properties in f.entities
    ensures AddAll(f, a + b) == AddAll(AddAll(f, a), b)
    decreases |a|
  {
    if a == [] {
      assert a + b == b;
    } else {
      assert (a + b)[0] == a[0] && (a + b)[1..] == a[1..] + b;
      AddAllAppend(AddNode(f, a[0]), a[1..], b);
    }
  }

  /**
   * Adding a drawable is adding, one by one, the nodes it reaches in
   * pre-order: the node before its children, the children in order.
   */
  lemma {:induction false} AddedIsPreorder(f: DrawLists, d: Drawable)
    ensures Added(f, d) == AddAll(f, Reached(f.entities.Keys, d))
    decreases d, |d.nodes| + 1
  {
    if d.properties in f.entities {
      var g := AddNode(f, d);
      assert g.entities.Keys == f.entities.Keys;
      AddedChildrenIsPreorder(g, d, |d.nodes|);
      assert AddAll(f, [d] + ReachedChildren(f.entities.Keys, d, |d.nodes|)) == AddAll(g, ReachedChildren(f.entities.Keys, d, |d.nodes|)) by {
        assert ([d] + ReachedChildren(f.entities.Keys, d, |d.nodes|))[1..] == ReachedChildren(f.entities.Keys, d, |d.nodes|);
      }
    }
  }

  lemma {:induction false} AddedChildrenIsPreorder(f: DrawLists, d: Drawable, k: nat)
    requires k <= |d.nodes|
    ensures AddedChildren(f, d, k) == AddAll(f, ReachedChildren(f.entities.Keys, d, k))
    decreases d, k
  {
    if k > 0 {
      var keys := f.entities.Keys;
      AddedChildrenIsPreorder(f, d, k - 1);
      var g := AddedChildren(f, d, k - 1);
      assert g.entities.Keys == keys;
      AddedIsPreorder(g, d.nodes[k - 1]);
      AddAllAppend(f, ReachedChildren(keys, d, k - 1), Reached(keys, d.nodes[k - 1]));
    }
  }

  /** A flat run of additions creates no bucket, and each bucket gains the entities of its nodes in order. */
  lemma {:induction false} AddAllBuckets(f: DrawLists, ns: seq<Drawable>, p: LightProperties)
    requires forall n :: n in ns ==> n.properties in f.entities
    requires p in f.entities
    ensures AddAll(f, ns).entities[p] == f.entities[p] + EntitiesWith(ns, p)
    decreases |ns|
  {
    if ns != [] {
      var g := AddNode(f, ns[0]);
      AddAllBuckets(g, ns[1..], p);
      if ns[0].properties == p {
        assert g.entities[p] == f.entities[p] + [ns[0].entity];
        assert EntitiesWith(ns, p) == [ns[0].entity] + EntitiesWith(ns[1..], p);
      } else {
        assert g.entities[p] == f.entities[p];
        assert EntitiesWith(ns, p) == EntitiesWith(ns[1..], p);
      }
    }
  }

  /** The entities of a run of nodes, as a set. */
  function EntitiesOf(ns: seq<Drawable>): set<Entity>
    decreases |ns|
  {
    if ns == [] then {} else {ns[0].entity} + EntitiesOf(ns[1..])
  }

  /** The dynamic nodes of a flat run join the light-interacting entities, in order. */
  lemma {:induction false} AddAllInteracting(f: DrawLists, ns: seq<Drawable>)
    requires forall n :: n in ns ==> n.properties in f.entities
    ensures AddAll(f, ns).interacting == f.interacting + DynamicEntities(ns)
    decreases |ns|
  {
    if ns != [] {
      var g := AddNode(f, ns[0]);
      var head := if HasFlag(ns[0].properties, DYNAMIC) then [ns[0].entity] else [];
      AddAllInteracting(g, ns[1..]);
      assert g.interacting == f.interacting + head;
      assert DynamicEntities(ns) == head + DynamicEntities(ns[1..]);
      assert (f.interacting + head) + DynamicEntities(ns[1..]) == f.interacting + (head + DynamicEntities(ns[1..]));
    }
  }

  /** Every entity of a flat run gets a motion record, and no other record changes. */
  lemma {:induction false} AddAllRecords(f: DrawLists, ns: seq<Drawable>)
    requires forall n :: n in ns ==> n.properties in f.entities
    ensures AddAll(f, ns).seen.Keys == f.seen.Keys + EntitiesOf(ns)
    ensures forall e :: e in f.seen && e !in EntitiesOf(ns) ==> AddAll(f, ns).seen[e] == f.seen[e]
    decreases |ns|
  {
    if ns != [] {
      var g := AddNode(f, ns[0]);
      AddAllRecords(g, ns[1..]);
      assert g.seen.Keys == f.seen.Keys + {ns[0].entity};
    }
  }

  /**
   * The whole of _addDrawable: the buckets stay as they were and each gains,
   * in pre-order, the entities of the nodes reached with those properties;
   * the reached dynamic nodes join the light-interacting entities; the
   * reached entities have motion records and every other record is unchanged.
   */
  lemma AddedLists(f: DrawLists, d: Drawable)
    ensures var r, ns := Added(f, d), Reached(f.entities.Keys, d);
            && r.entities.Keys == f.entities.Keys
            && (forall p :: p in f.entities ==> r.entities[p] == f.entities[p] + EntitiesWith(ns, p))
            && r.interacting == f.interacting + DynamicEntities(ns)
            && r.seen.Keys == f.seen.Keys + EntitiesOf(ns)
            && (forall e :: e in f.seen && e !in EntitiesOf(ns) ==> r.seen[e] == f.seen[e])
  {
    var ns := Reached(f.entities.Keys, d);
    AddedIsPreorder(f, d);
    forall p | p in f.entities
      ensures Added(f, d).entities[p] == f.entities[p] + EntitiesWith(ns, p)
    {
      AddAllBuckets(f, ns, p);
    }
    AddAllInteracting(f, ns);
    AddAllRecords(f, ns);
  }

  // ---------------------------------------------------------------------------
  // The shadow pass of end()

  /** Shadow-casting lights the pass keeps per frame, and its per-frame update budget. */
  const MAX_SHADOW_CASTING_LIGHTS: nat := 8
  const MAX_SHADOW_UPDATES_PER_FRAME: nat := MAX_SHADOW_CASTING_LIGHTS

  /**
   * The casters the shadow pass gets to: its counter is tested before it is
   * incremented and the test is "more than the budget", so one more light
   * than the budget is counted before the loop stops.
   */
  function Visited(casters: seq<Light>, maxUpdates: nat): (r: seq<Light>)
    ensures |r| == if |casters| <= maxUpdates + 1 then |casters| else maxUpdates + 1
    ensures r == casters[..|r|]
  {
    if |casters| <= maxUpdates + 1 then casters else casters[..maxUpdates + 1]
  }

  /** The lights of ls whose shadows need rendering: dirty at the start of the frame, or near a dirty entity. */
  function Pending(ls: seq<Light>, seen: map<Light, EntityStateInfo>, touched: set<Light>): (r: seq<Light>)
    requires forall l :: l in ls ==> l in seen
    ensures |r| <= |ls|
    ensures forall l :: l in r <==> l in ls && (seen[l].dirty || l in touched)
    decreases |ls|
  {
    if ls == [] then []
    else
      var init, last := ls[..|ls| - 1], ls[|ls| - 1];
      assert ls == init + [last];
      if seen[last].dirty || last in touched then Pending(init, seen, touched) + [last]
      else Pending(init, seen, touched)
  }

  /** The records after the lights of ls had their shadows rendered. */
  function Cleared(seen: map<Light, EntityStateInfo>, ls: seq<Light>): (r: map<Light, EntityStateInfo>)
    ensures r.Keys == seen.Keys
  {
    map l | l in seen :: if l in ls then seen[l].(dirty := false) else seen[l]
  }

  /** Since the kept casters never exceed the budget, the off-by-one of the loop never cuts any off. */
  lemma KeptCastersAllVisited(casters: seq<Light>)
    requires |casters| <= MAX_SHADOW_CASTING_LIGHTS
    ensures Visited(casters, MAX_SHADOW_UPDATES_PER_FRAME) == casters
  {
  }

  /** Lights the dirty entities reach: a dirty entity within a caster's radius makes that caster dirty. */
  function Touched(ents: seq<Entity>, seenEntities: map<Entity, EntityStateInfo>, casters: seq<Light>,
                   reaches: set<(Entity, Light)>): (r: set<Light>)
    requires forall e :: e in ents ==> e in seenEntities
    ensures forall l :: l in r ==> l in casters
  {
    set e, l | e in ents && l in casters && seenEntities[e].dirty && (e, l) in reaches :: l
  }

  datatype Entity = Entity(id: int)

  // ---------------------------------------------------------------------------
  // Texture handle cache

  /** The handle loadTexture reports on a failed load, and that looks up no texture. */
  const INVALID_HANDLE: Handle := -1

  datatype TextureCache = TextureCache(file: string, handle: Handle, texture: Option<Texture>, loaded: bool)

  /** Entries by file, the same entries by handle, and the handle counter (shared with shadow maps). */
  datatype TextureStore = TextureStore(textures: map<string, TextureCache>, textureHandles: map<Handle, TextureCache>,
                                       nextTextureHandle: Handle)

  /**
   * The two indexes agree on which file has which handle, and every handle
   * was given out by the counter.
   */
  ghost predicate StoreInv(s: TextureStore) {
    && INVALID_HANDLE < s.nextTextureHandle
    && (forall f :: f in s.textures ==>
          && s.textures[f].file == f
          && s.textures[f].handle in s.textureHandles
          && s.textureHandles[s.textures[f].handle].file == f)
    && (forall h :: h in s.textureHandles ==>
          && s.textureHandles[h].handle == h
          && INVALID_HANDLE < h < s.nextTextureHandle
          && s.textureHandles[h].file in s.textures
          && s.textures[s.textureHandles[h].file].handle == h)
  }

  function EmptyStore(firstHandle: nat): (s: TextureStore)
    ensures StoreInv(s) && s.nextTextureHandle == firstHandle
  {
    TextureStore(map[], map[], firstHandle)
  }

  /**
   * loadTexture of file, where image is what reading the file gives (None
   * when it cannot be read): the store after it and the handle returned.
   * A fresh entry is taken as loaded; the default value of the entry's
   * loaded flag is declared in a header that is not part of this model.
   */
  function Load(s: TextureStore, file: string, image: Option<Texture>): (r: (TextureStore, Handle))
    ensures file in s.textures ==> r == (s, s.textures[file].handle)
    ensures file !in s.textures ==> r.0.nextTextureHandle == s.nextTextureHandle + 1
    ensures file !in s.textures && image.None? ==>
              r.1 == INVALID_HANDLE && r.0.textures == s.textures && r.0.textureHandles == s.textureHandles
    ensures file !in s.textures && image.Some? ==>
              && r.1 == s.nextTextureHandle
              && r.0.textures == s.textures[file := TextureCache(file, r.1, image, true)]
              && r.0.textureHandles == s.textureHandles[r.1 := TextureCache(file, r.1, image, true)]
  {
    if file in s.textures then (s, s.textures[file].handle)
    else
      var h := s.nextTextureHandle;
      var counted := s.(nextTextureHandle := h + 1);
      if image.None? then (counted, INVALID_HANDLE)
      else
        var entry := TextureCache(file, h, image, true);
        (counted.(textures := s.textures[file := entry], textureHandles := s.textureHandles[h := entry]), h)
  }

  /**
   * _lookupTexture of h: the texture behind a texture handle (read again from
   * its file, giving image, if it is marked unloaded), else the cube map of a
   * shadow-map handle, else nothing.
   */
  function Lookup(s: TextureStore, shadowMaps: map<Handle, Texture>, h: Handle, image: Option<Texture>)
    : (r: (TextureStore, Option<Texture>))
    ensures r.0.textureHandles.Keys == s.textureHandles.Keys && r.0.nextTextureHandle == s.nextTextureHandle
    ensures h == INVALID_HANDLE ==> r == (s, None)
    ensures h != INVALID_HANDLE && h !in s.textureHandles ==>
              r.0 == s && (r.1.Some? <==> h in shadowMaps) && (h in shadowMaps ==> r.1 == Some(shadowMaps[h]))
    ensures h != INVALID_HANDLE && h in s.textureHandles && s.textureHandles[h].loaded ==>
              r == (s, s.textureHandles[h].texture)
    ensures h != INVALID_HANDLE && h in s.textureHandles && !s.textureHandles[h].loaded ==> r.1 == image
  {
    if h == INVALID_HANDLE then (s, None)
    else if h !in s.textureHandles then
      (s, if h in shadowMaps then Some(shadowMaps[h]) else None)
    else
      var entry := s.textureHandles[h];
      if entry.loaded then (s, entry.texture)
      else
        var reloaded := entry.(texture := image, loaded := image.Some?);
        (s.(textures := s.textures[entry.file := reloaded], textureHandles := s.textureHandles[h := reloaded]), image)
  }

  lemma LoadKeepsInv(s: TextureStore, file: string, image: Option<Texture>)
    requires StoreInv(s)
    ensures StoreInv(Load(s, file, image).0)
  {
    if file !in s.textures && image.Some? {
      var r := Load(s, file, image).0;
      var h := s.nextTextureHandle;
      assert h !in s.textureHandles;
      forall g | g in r.textureHandles
        ensures && r.textureHandles[g].handle == g && INVALID_HANDLE < g < r.nextTextureHandle
                && r.textureHandles[g].file in r.textures && r.textures[r.textureHandles[g].file].handle == g
      {
        if g != h {
          assert r.textureHandles[g] == s.textureHandles[g];
          assert s.textureHandles[g].file != file;
        }
      }
    }
  }

  /**
   * Loading a file that loaded gives its handle back and changes nothing,
   * whatever reading the file would give now; and a failed load only
   * advances the counter.
   */
  lemma LoadTwiceSameHandle(s: TextureStore, file: string, image: Option<Texture>, again: Option<Texture>)
    requires StoreInv(s) && (image.Some? || file in s.textures)
    ensures var (s1, h1) := Load(s, file, image);
            && (h1 != INVALID_HANDLE || file in s.textures)
            && Load(s1, file, again) == (s1, h1)
  {
  }

  /** What a successful load cached is what looking its handle up gives, with nothing read again. */
  lemma LoadThenLookup(s: TextureStore, shadowMaps: map<Handle, Texture>, file: string, image: Option<Texture>,
                       again: Option<Texture>)
    requires StoreInv(s) && file !in s.textures && image.Some?
    ensures var (s1, h) := Load(s, file, image);
            h != INVALID_HANDLE && Lookup(s1, shadowMaps, h, again) == (s1, image)
  {
  }

  lemma LookupKeepsInv(s: TextureStore, shadowMaps: map<Handle, Texture>, h: Handle, image: Option<Texture>)
    requires StoreInv(s)
    ensures StoreInv(Lookup(s, shadowMaps, h, image).0)
  {
    if h != INVALID_HANDLE && h in s.textureHandles && !s.textureHandles[h].loaded {
      var r := Lookup(s, shadowMaps, h, image).0;
      var f := s.textureHandles[h].file;
      forall g | g in r.textureHandles
        ensures && r.textureHandles[g].handle == g && INVALID_HANDLE < g < r.nextTextureHandle
                && r.textureHandles[g].file in r.textures && r.textures[r.textureHandles[g].file].handle == g
      {
        if g != h {
          assert r.textureHandles[g] == s.textureHandles[g];
        }
      }
      forall f2 | f2 in r.textures
        ensures && r.textures[f2].file == f2 && r.textures[f2].handle in r.textureHandles
                && r.textureHandles[r.textures[f2].handle].file == f2
      {
        if f2 != f {
          assert r.textures[f2] == s.textures[f2];
          assert s.textures[f2].handle != h;
        }
      }
    }
  }

  /**
   * invalidateAllTextures as written: the entries by file are emptied and
   * marked unloaded; the entries by handle, which lookups read, are not.
   */
  function InvalidateAll(s: TextureStore): (r: TextureStore)
    ensures r.textures.Keys == s.textures.Keys && r.textureHandles == s.textureHandles
    ensures forall f :: f in r.textures ==> !r.textures[f].loaded && r.textures[f].texture.None?
  {
    s.(textures := map f | f in s.textures :: s.textures[f].(texture := None, loaded := false))
  }

  /** As written, a texture loaded before the invalidation is still served, and its file is not read again. */
  lemma InvalidatedTextureStillServed(s: TextureStore, shadowMaps: map<Handle, Texture>, h: Handle,
                                      image: Option<Texture>)
    requires StoreInv(s) && h in s.textureHandles && s.textureHandles[h].loaded
    ensures Lookup(InvalidateAll(s), shadowMaps, h, image).1 == s.textureHandles[h].texture
  {
  }

  /** The invalidation that marks the entries lookups read as well. */
  function InvalidateAllFixed(s: TextureStore): (r: TextureStore)
    ensures r.textures.Keys == s.textures.Keys && r.textureHandles.Keys == s.textureHandles.Keys
    ensures forall f :: f in r.textures ==> !r.textures[f].loaded
    ensures forall h :: h in r.textureHandles ==> !r.textureHandles[h].loaded
  {
    s.(textures := map f | f in s.textures :: s.textures[f].(texture := None, loaded := false),
       textureHandles := map h | h in s.textureHandles :: s.textureHandles[h].(texture := None, loaded := false))
  }

  /** After the fixed invalidation every texture is read from its file again on its next lookup, and the store stays consistent. */
  lemma InvalidatedTextureReloaded(s: TextureStore, shadowMaps: map<Handle, Texture>, h: Handle,
                                   image: Option<Texture>)
    requires StoreInv(s) && h in s.textureHandles
    ensures StoreInv(InvalidateAllFixed(s))
    ensures Lookup(InvalidateAllFixed(s), shadowMaps, h, image).1 == image
  {
    var r := InvalidateAllFixed(s);
    assert INVALID_HANDLE < h;
    forall g | g in r.textureHandles
      ensures && r.textureHandles[g].handle == g && INVALID_HANDLE < g < r.nextTextureHandle
              && r.textureHandles[g].file in r.textures && r.textures[r.textureHandles[g].file].handle == g
    {
      assert r.textureHandles[g].file == s.textureHandles[g].file;
    }
  }

  // ---------------------------------------------------------------------------
  // Dirty flags raised by shadow-map allocation

  /**
   * The records after the lights of ls asked the cache c for a shadow map in
   * turn: a light that had none at the time of its request becomes dirty.
   */
  function DirtyAfter(c: CacheState, seen: map<Light, EntityStateInfo>, ls: seq<Light>): (r: map<Light, EntityStateInfo>)
    requires Inv(c) && (ls != [] ==> |c.pool| > 0)
    requires forall l :: l in ls ==> l in seen
    ensures r.Keys == seen.Keys
    decreases |ls|
  {
    if ls == [] then seen
    else
      var init, last := ls[..|ls| - 1], ls[|ls| - 1];
      var prev := DirtyAfter(c, seen, init);
      if last in AllocateAll(c, init).lightsToShadowMap then prev
      else prev[last := prev[last].(dirty := true)]
  }

  /** One more request at the end of a run raises at most that light's flag. */
  lemma DirtyAfterSnoc(c: CacheState, seen: map<Light, EntityStateInfo>, ls: seq<Light>, l: Light)
    requires Inv(c) && |c.pool| > 0
    requires forall x :: x in ls ==> x in seen
    requires l in seen
    ensures DirtyAfter(c, seen, ls + [l]) ==
              var prev := DirtyAfter(c, seen, ls);
              if l in AllocateAll(c, ls).lightsToShadowMap then prev else prev[l := prev[l].(dirty := true)]
  {
    assert (ls + [l])[..|ls|] == ls;
  }

  /** Requests add map entries for the requesting lights and for nobody else. */
  lemma {:induction false} AllocateAllKeys(c: CacheState, ls: seq<Light>)
    requires Inv(c) && (ls != [] ==> |c.pool| > 0)
    ensures forall x :: x in AllocateAll(c, ls).lightsToShadowMap <==> x in c.lightsToShadowMap || x in ls
    decreases |ls|
  {
    if ls != [] {
      var init, last := ls[..|ls| - 1], ls[|ls| - 1];
      assert ls == init + [last];
      AllocateAllKeys(c, init);
      var prev := AllocateAll(c, init);
      forall x ensures x in GetOrAllocate(prev, last).0.lightsToShadowMap <==> x in prev.lightsToShadowMap || x == last {
        if x in prev.lightsToShadowMap {
          GetOrAllocateKeepsEntries(prev, last, x);
        }
        if !Exists(prev, last) && FirstFree(prev.pool, prev.usedShadowMaps).None? {
          ExhaustedPoolHasRecent(prev);
        }
      }
    }
  }

  /**
   * Across a run of requests, exactly the lights that had no shadow map
   * before the run and made a request end up flagged; every other record is
   * as it was.
   */
  lemma {:induction false} DirtyAfterMarks(c: CacheState, seen: map<Light, EntityStateInfo>, ls: seq<Light>)
    requires Inv(c) && (ls != [] ==> |c.pool| > 0)
    requires forall l :: l in ls ==> l in seen
    ensures forall l :: l in seen ==>
              DirtyAfter(c, seen, ls)[l] ==
                if l in ls && l !in c.lightsToShadowMap then seen[l].(dirty := true) else seen[l]
    decreases |ls|
  {
    if ls != [] {
      var init, last := ls[..|ls| - 1], ls[|ls| - 1];
      assert ls == init + [last];
      DirtyAfterMarks(c, seen, init);
      AllocateAllKeys(c, init);
    }
  }

  /**
   * The records after the shadow pass rendered ls, in order: each rendered
   * light's flag is cleared, and the shadow-map request that follows raises
   * it again when the light had no map.
   */
  function PassFlags(c: CacheState, seen: map<Light, EntityStateInfo>, ls: seq<Light>): (r: map<Light, EntityStateInfo>)
    requires Inv(c) && (ls != [] ==> |c.pool| > 0)
    requires forall l :: l in ls ==> l in seen
    ensures r.Keys == seen.Keys
    decreases |ls|
  {
    if ls == [] then seen
    else
      var init, last := ls[..|ls| - 1], ls[|ls| - 1];
      var prev := PassFlags(c, seen, init);
      var clean := prev[last := prev[last].(dirty := false)];
      if last in AllocateAll(c, init).lightsToShadowMap then clean
      else clean[last := clean[last].(dirty := true)]
  }

  /** One more rendered light: its flag is cleared, then raised if its request finds no map. */
  lemma PassFlagsSnoc(c: CacheState, seen: map<Light, EntityStateInfo>, ls: seq<Light>, l: Light)
    requires Inv(c) && |c.pool| > 0
    requires forall x :: x in ls ==> x in seen
    requires l in seen
    ensures PassFlags(c, seen, ls + [l]) ==
              var prev := PassFlags(c, seen, ls);
              var clean := prev[l := prev[l].(dirty := false)];
              if l in AllocateAll(c, ls).lightsToShadowMap then clean else clean[l := clean[l].(dirty := true)]
  {
    assert (ls + [l])[..|ls|] == ls;
  }

  /** The pass touches the records of the lights it rendered, and only their dirty flags. */
  lemma {:induction false} PassFlagsFrame(c: CacheState, seen: map<Light, EntityStateInfo>, ls: seq<Light>)
    requires Inv(c) && (ls != [] ==> |c.pool| > 0)
    requires forall l :: l in ls ==> l in seen
    ensures var r := PassFlags(c, seen, ls);
            && (forall x :: x in seen && x !in ls ==> r[x] == seen[x])
            && (forall x :: x in ls ==> r[x] == seen[x].(dirty := r[x].dirty))
    decreases |ls|
  {
    if ls != [] {
      var init, last := ls[..|ls| - 1], ls[|ls| - 1];
      assert ls == init + [last];
      PassFlagsFrame(c, seen, init);
      var prev, r := PassFlags(c, seen, init), PassFlags(c, seen, ls);
      assert r[last] == prev[last].(dirty := r[last].dirty);
      forall x | x in seen && x != last ensures r[x] == prev[x] {
      }
    }
  }

  /**
   * With every light rendered once, a rendered light ends dirty exactly when
   * it had no map at the start of the pass; the others keep their records.
   */
  lemma {:induction false} PassFlagsMarks(c: CacheState, seen: map<Light, EntityStateInfo>, ls: seq<Light>)
    requires Inv(c) && (ls != [] ==> |c.pool| > 0)
    requires forall l :: l in ls ==> l in seen
    requires NoDuplicates(ls)
    ensures forall x :: x in seen ==>
              PassFlags(c, seen, ls)[x] ==
                if x in ls then seen[x].(dirty := x !in c.lightsToShadowMap) else seen[x]
    decreases |ls|
  {
    if ls != [] {
      var init, last := ls[..|ls| - 1], ls[|ls| - 1];
      assert ls == init + [last];
      assert last !in init by {
        forall i | 0 <= i < |init| ensures init[i] != last { assert init[i] == ls[i]; }
      }
      PassFlagsMarks(c, seen, init);
      AllocateAllKeys(c, init);
    }
  }

  /**
   * With every light rendered once, the pass's records are the cleared
   * records with the flags that DirtyAfter's requests raise.
   */
  lemma PassFlagsAsDirtyAfter(c: CacheState, seen: map<Light, EntityStateInfo>, ls: seq<Light>)
    requires Inv(c) && (ls != [] ==> |c.pool| > 0)
    requires forall l :: l in ls ==> l in seen
    requires NoDuplicates(ls)
    ensures PassFlags(c, seen, ls) == DirtyAfter(c, Cleared(seen, ls), ls)
  {
    var cleared := Cleared(seen, ls);
    PassFlagsMarks(c, seen, ls);
    DirtyAfterMarks(c, cleared, ls);
    var r, d := PassFlags(c, seen, ls), DirtyAfter(c, cleared, ls);
    forall x | x in seen ensures r[x] == d[x] {
    }
  }

  /** The lights the pass renders come in the order of the casters, each once if the casters are distinct. */
  lemma {:induction false} PendingNoDuplicates(ls: seq<Light>, seen: map<Light, EntityStateInfo>, touched: set<Light>)
    requires forall l :: l in ls ==> l in seen
    requires NoDuplicates(ls)
    ensures NoDuplicates(Pending(ls, seen, touched))
    decreases |ls|
  {
    if ls != [] {
      var init, last := ls[..|ls| - 1], ls[|ls| - 1];
      assert ls == init + [last];
      assert NoDuplicates(init) by {
        forall i, j | 0 <= i < j < |init| ensures init[i] != init[j] { assert init[i] == ls[i] && init[j] == ls[j]; }
      }
      assert last !in init by {
        forall i | 0 <= i < |init| ensures init[i] != last { assert init[i] == ls[i]; }
      }
      PendingNoDuplicates(init, seen, touched);
    }
  }

  /**
   * After the shadow pass over distinct casters, a caster it got to is
   * dirty exactly when it was rendered and had no shadow map before the
   * pass (its request then took one, so it must be drawn again); every light
   * it did not render keeps its record.
   */
  lemma ShadowPassCleansVisited(c: CacheState, casters: seq<Light>, maxUpdates: nat, seen: map<Light, EntityStateInfo>,
                                touched: set<Light>)
    requires forall l :: l in casters ==> l in seen
    requires NoDuplicates(casters)
    requires Inv(c) && (Pending(Visited(casters, maxUpdates), seen, touched) != [] ==> |c.pool| > 0)
    ensures var rendered := Pending(Visited(casters, maxUpdates), seen, touched);
            var after := PassFlags(c, seen, rendered);
            && (forall l :: l in Visited(casters, maxUpdates) ==>
                  (after[l].dirty <==> l in rendered && l !in c.lightsToShadowMap))
            && (forall l :: l in seen && l !in rendered ==> after[l] == seen[l])
  {
    var visited := Visited(casters, maxUpdates);
    assert NoDuplicates(visited) by {
      forall i, j | 0 <= i < j < |visited| ensures visited[i] != visited[j] {
        assert visited[i] == casters[i] && visited[j] == casters[j];
      }
    }
    assert forall l :: l in visited ==> l in casters;
    var rendered := Pending(visited, seen, touched);
    PendingNoDuplicates(visited, seen, touched);
    PassFlagsMarks(c, seen, rendered);
  }

  // ---------------------------------------------------------------------------
  // Bloom buffer sizes

  /** The downsampling loop halves at most this many times. */
  const LEGACY_DOWNSAMPLE_ITERATIONS: nat := 6

  /** Sizes are 32-bit unsigned: doubling wraps around modulo this. */
  const UINT32_MODULUS: nat := 0x1_0000_0000

  function Twice(n: nat): nat {
    (2 * n) % UINT32_MODULUS
  }

  function TwiceSize(s: Size): Size {
    Size(Twice(s.width), Twice(s.height))
  }

  /** n doubled k times with wrap-around. */
  function Doublings(n: nat, k: nat): nat
    decreases k
  {
    if k == 0 then n else Doublings(Twice(n), k - 1)
  }

  /** s doubled k times with wrap-around. */
  function TwiceN(s: Size, k: nat): Size {
    Size(Doublings(s.width, k), Doublings(s.height, k))
  }

  /** The doubling loop's exit test: either side is back at the window's. */
  predicate Reaches(s: Size, window: Size) {
    s.width == window.width || s.height == window.height
  }

  /** Whether the driver accepts the i-th bloom framebuffer; those past the list are accepted. */
  predicate Accepts(verdicts: seq<bool>, i: nat) {
    i >= |verdicts| || verdicts[i]
  }

  datatype Stop = Completed | Rejected | Diverges

  /**
   * The downsampling loop from size s with left halvings to go and the i-th
   * framebuffer next: the sizes it pushes, the size it ends on and whether a
   * framebuffer was rejected.
   */
  function Descend(s: Size, verdicts: seq<bool>, i: nat, left: nat): (r: (seq<Size>, Size, bool))
    ensures |r.0| <= left && |r.0| <= |Halvings(s, left)|
    ensures r.0 == Halvings(s, left)[..|r.0|]
    ensures !r.2 ==> r.0 == Halvings(s, left)
    ensures r.2 ==> !Accepts(verdicts, i + |r.0|)
    ensures forall j :: i <= j < i + |r.0| ==> Accepts(verdicts, j)
    decreases left
  {
    if left == 0 then ([], s, false)
    else
      var t := Half(s);
      if t.width < MIN_BLOOM_SIZE || t.height < MIN_BLOOM_SIZE then ([], t, false)
      else if !Accepts(verdicts, i) then ([], t, true)
      else
        var rest := Descend(t, verdicts, i + 1, left - 1);
        ([t] + rest.0, rest.1, rest.2)
  }

  /** After this many doublings every 32-bit size is zero, so the doubling loop can bound its search by it. */
  const CLIMB_BOUND: nat := 32

  /**
   * The doubling loop from size s with the i-th framebuffer next, for at most
   * fuel turns: the sizes it pushes and why it stopped (Diverges: out of fuel).
   * Each turn doubles, counts an upsampling iteration, creates the
   * framebuffer and then tests for the window size.
   */
  function Climb(s: Size, window: Size, verdicts: seq<bool>, i: nat, fuel: nat): (r: (seq<Size>, Stop))
    ensures |r.0| <= fuel
    ensures forall j :: 0 <= j < |r.0| ==> r.0[j] == TwiceN(s, j + 1)
    ensures forall j :: i <= j < i + |r.0| ==> Accepts(verdicts, j)
    ensures r.1 == Completed ==> |r.0| > 0 && Reaches(r.0[|r.0| - 1], window)
    ensures r.1 == Rejected ==> !Accepts(verdicts, i + |r.0|)
    ensures forall j :: 0 <= j < |r.0| && (r.1 != Completed || j < |r.0| - 1) ==> !Reaches(r.0[j], window)
    ensures r.1 == Diverges ==> |r.0| == fuel
    decreases fuel
  {
    if fuel == 0 then ([], Diverges)
    else
      var t := TwiceSize(s);
      assert Doublings(s.width, 1) == Twice(s.width) && Doublings(s.height, 1) == Twice(s.height);
      if !Accepts(verdicts, i) then ([], Rejected)
      else if Reaches(t, window) then ([t], Completed)
      else
        var rest := Climb(t, window, verdicts, i + 1, fuel - 1);
        ([t] + rest.0, rest.1)
  }

  /** Everything _initializePostFxBuffers produces. */
  datatype LegacyRun = LegacyRun(buffers: seq<Size>, downsamples: nat, upsamples: nat, stop: Stop)

  /**
   * The bloom buffers for a window: halvings while at least 8 on both sides
   * (at most 6), then doublings of the last size halved until a side equals
   * the window's. If the loop would never stop, the run holds the buffers of
   * its first CLIMB_BOUND doublings and says Diverges.
   */
  function LegacyPostFx(window: Size, verdicts: seq<bool>): (r: LegacyRun)
    ensures r.downsamples <= |Halvings(window, LEGACY_DOWNSAMPLE_ITERATIONS)| && r.downsamples <= |r.buffers|
    ensures r.buffers[..r.downsamples] == Halvings(window, LEGACY_DOWNSAMPLE_ITERATIONS)[..r.downsamples]
    ensures r.stop != Rejected ==> r.buffers[..r.downsamples] == Halvings(window, LEGACY_DOWNSAMPLE_ITERATIONS)
    ensures r.stop == Completed ==> |r.buffers| > r.downsamples && Reaches(r.buffers[|r.buffers| - 1], window)
    ensures r.stop != Rejected ==> r.upsamples == |r.buffers| - r.downsamples
  {
    var (downs, last, rejected) := Descend(window, verdicts, 0, LEGACY_DOWNSAMPLE_ITERATIONS);
    if rejected then LegacyRun(downs, |downs|, 0, Rejected)
    else
      var (ups, stop) := Climb(last, window, verdicts, |downs|, CLIMB_BOUND);
      assert (downs + ups)[..|downs|] == downs;
      LegacyRun(downs + ups, |downs|, |ups| + (if stop == Rejected then 1 else 0), stop)
  }

  // ---------------------------------------------------------------------------
  // Why Diverges is final

  /** Euclidean remainder: x is a multiple of m exactly when x is m times its quotient. */
  lemma MultipleOf(x: nat, m: nat, a: nat)
    requires m > 0 && x == m * a
    ensures x % m == 0
  {
    DivUnique(x, m, a, 0);
  }

  /** Reducing a multiple of m modulo a multiple of m leaves a multiple of m. */
  lemma ModKeepsMultiple(x: nat, m: nat, a: nat, c: nat, b: nat)
    requires m > 0 && x == m * a && c == m * b && c > 0
    ensures (x % c) % m == 0
  {
    var q := x / c;
    assert x % c == x - q * c;
    assert q * c == m * (q * b);
    assert x - q * c == m * (a - q * b);
    assert a - q * b >= 0;
    MultipleOf(x % c, m, a - q * b);
  }

  lemma {:induction false} Pow2Add(a: nat, b: nat)
    ensures Pow2(a + b) == Pow2(a) * Pow2(b)
    decreases a
  {
    if a > 0 {
      Pow2Add(a - 1, b);
    }
  }

  lemma Pow2At32()
    ensures Pow2(CLIMB_BOUND) == UINT32_MODULUS
  {
    assert Pow2(4) == 16;
    assert Pow2(8) == 256 by { Pow2Add(4, 4); }
    assert Pow2(16) == 65536 by { Pow2Add(8, 8); }
    Pow2Add(16, 16);
  }

  /** Doubling k + 1 times is doubling k times and then once more. */
  lemma {:induction false} DoublingsShift(n: nat, k: nat)
    ensures Doublings(n, k + 1) == Twice(Doublings(n, k))
    decreases k
  {
    if k > 0 {
      DoublingsShift(Twice(n), k - 1);
    }
  }

  /** Doubling a multiple of 2^k (k < 32) with wrap-around gives a multiple of 2^(k + 1). */
  lemma TwiceMultiple(v: nat, k: nat)
    requires k < CLIMB_BOUND && v % Pow2(k) == 0
    ensures Twice(v) % Pow2(k + 1) == 0
  {
    var p := Pow2(k);
    var a := v / p;
    DivExact(v, p);
    assert 2 * v == (2 * p) * a by {
      MulTwice(p, a);
    }
    assert UINT32_MODULUS == Pow2(k + 1) * Pow2(CLIMB_BOUND - (k + 1)) by {
      Pow2At32();
      Pow2Add(k + 1, CLIMB_BOUND - (k + 1));
    }
    ModKeepsMultiple(2 * v, Pow2(k + 1), a, UINT32_MODULUS, Pow2(CLIMB_BOUND - (k + 1)));
  }

  lemma DivExact(v: nat, d: nat)
    requires d > 0 && v % d == 0
    ensures v == d * (v / d)
  {
  }

  lemma MulTwice(p: nat, a: nat)
    ensures 2 * (p * a) == (2 * p) * a
  {
  }

  /** k doublings leave a multiple of 2^k, for k up to 32. */
  lemma {:induction false} DoublingsMultiple(n: nat, k: nat)
    requires k <= CLIMB_BOUND
    ensures Doublings(n, k) % Pow2(k) == 0 || k == 0
    decreases k
  {
    if k > 1 {
      DoublingsMultiple(n, k - 1);
      DoublingsShift(n, k - 1);
      TwiceMultiple(Doublings(n, k - 1), k - 1);
    } else if k == 1 {
      assert Pow2(0) == 1;
      TwiceMultiple(n, 0);
    }
  }

  /** Doubling k + j times is doubling k times and then j times. */
  lemma {:induction false} DoublingsAdd(n: nat, k: nat, j: nat)
    ensures Doublings(n, k + j) == Doublings(Doublings(n, k), j)
    decreases k
  {
    if k > 0 {
      DoublingsAdd(Twice(n), k - 1, j);
    }
  }

  lemma {:induction false} DoublingsOfZero(j: nat)
    ensures Doublings(0, j) == 0
    decreases j
  {
    if j > 0 {
      DoublingsOfZero(j - 1);
    }
  }

  /** From the 32nd doubling on, every size is zero. */
  lemma DoublingsVanish(n: nat, k: nat)
    requires k >= CLIMB_BOUND
    ensures Doublings(n, k) == 0
  {
    var v := Doublings(n, CLIMB_BOUND);
    assert v % UINT32_MODULUS == 0 by {
      DoublingsMultiple(n, CLIMB_BOUND);
      Pow2At32();
    }
    assert v < UINT32_MODULUS by {
      DoublingsShift(n, CLIMB_BOUND - 1);
    }
    WordMultipleIsZero(v);
    assert Doublings(n, k) == Doublings(v, k - CLIMB_BOUND) by {
      DoublingsAdd(n, CLIMB_BOUND, k - CLIMB_BOUND);
    }
    DoublingsOfZero(k - CLIMB_BOUND);
  }

  lemma WordMultipleIsZero(v: nat)
    requires v < UINT32_MODULUS && v % UINT32_MODULUS == 0
    ensures v == 0
  {
  }

  /**
   * A run that says Diverges never stops on its own: no later doubling ever
   * brings a side back to the window's, so only a rejected framebuffer would
   * end the loop.
   */
  lemma ClimbDivergesForever(s: Size, window: Size, verdicts: seq<bool>, i: nat)
    requires Climb(s, window, verdicts, i, CLIMB_BOUND).1 == Diverges
    ensures forall k :: k >= 1 ==> !Reaches(TwiceN(s, k), window)
  {
    var r := Climb(s, window, verdicts, i, CLIMB_BOUND);
    forall k | k >= 1 ensures !Reaches(TwiceN(s, k), window) {
      if k > CLIMB_BOUND {
        DoublingsVanish(s.width, k);
        DoublingsVanish(s.height, k);
        DoublingsVanish(s.width, CLIMB_BOUND);
        DoublingsVanish(s.height, CLIMB_BOUND);
        assert TwiceN(s, k) == r.0[CLIMB_BOUND - 1];
      } else {
        assert TwiceN(s, k) == r.0[k - 1];
      }
    }
  }

  /** With every framebuffer accepted and no doubling reaching the window, the search runs out of fuel. */
  lemma {:induction false} ClimbNoReach(s: Size, window: Size, verdicts: seq<bool>, i: nat, fuel: nat)
    requires forall k :: 1 <= k <= fuel ==> !Reaches(TwiceN(s, k), window)
    requires forall j :: i <= j < i + fuel ==> Accepts(verdicts, j)
    ensures Climb(s, window, verdicts, i, fuel).1 == Diverges
    decreases fuel
  {
    if fuel > 0 {
      assert TwiceN(s, 1) == TwiceSize(s);
      assert Accepts(verdicts, i);
      forall k | 1 <= k <= fuel - 1 ensures !Reaches(TwiceN(TwiceSize(s), k), window) {
        assert TwiceN(TwiceSize(s), k) == TwiceN(s, k + 1);
      }
      ClimbNoReach(TwiceSize(s), window, verdicts, i + 1, fuel - 1);
    }
  }

  /** Doubling keeps multiples of 128 (a divisor of the modulus). */
  lemma {:induction false} DoublingsKeep128(n: nat, k: nat)
    requires n % 128 == 0
    ensures Doublings(n, k) % 128 == 0
    decreases k
  {
    if k > 0 {
      var a := n / 128;
      assert n == 128 * a;
      ModKeepsMultiple(2 * n, 128, 2 * a, UINT32_MODULUS, UINT32_MODULUS / 128);
      DoublingsKeep128(Twice(n), k - 1);
    }
  }

  /** The doublings of 15 up to the first one past 1000. */
  lemma DoublingsOf15()
    ensures Doublings(15, 0) == 15 && Doublings(15, 1) == 30 && Doublings(15, 2) == 60
    ensures Doublings(15, 3) == 120 && Doublings(15, 4) == 240 && Doublings(15, 5) == 480
    ensures Doublings(15, 6) == 960 && Doublings(15, 7) == 1920
  {
    assert Doublings(15, 1) == 30 by { DoublingsShift(15, 0); }
    assert Doublings(15, 2) == 60 by { DoublingsShift(15, 1); }
    assert Doublings(15, 3) == 120 by { DoublingsShift(15, 2); }
    assert Doublings(15, 4) == 240 by { DoublingsShift(15, 3); }
    assert Doublings(15, 5) == 480 by { DoublingsShift(15, 4); }
    assert Doublings(15, 6) == 960 by { DoublingsShift(15, 5); }
    assert Doublings(15, 7) == 1920 by { DoublingsShift(15, 6); }
  }

  /** From 15, doubling never lands on 1000: 15, 30, ..., 960, then multiples of 128. */
  lemma NeverThousandFrom15(k: nat)
    ensures Doublings(15, k) != 1000
  {
    DoublingsOf15();
    if k >= 7 {
      DoublingsAdd(15, 7, k - 7);
      DoublingsKeep128(1920, k - 7);
    }
  }

  /**
   * A 1000 x 1000 window: six halvings end on 15 x 15 and no doubling of 15
   * is 1000, so with every framebuffer accepted the doubling loop never ends.
   */
  lemma ThousandSquareDiverges()
    ensures LegacyPostFx(Size(1000, 1000), []).stop == Diverges
    ensures forall k :: k >= 1 ==> !Reaches(TwiceN(Size(15, 15), k), Size(1000, 1000))
  {
    var window := Size(1000, 1000);
    assert Descend(Size(15, 15), [], 6, 0) == ([], Size(15, 15), false);
    assert Descend(Size(31, 31), [], 5, 1).1 == Size(15, 15) && |Descend(Size(31, 31), [], 5, 1).0| == 1;
    assert Descend(Size(62, 62), [], 4, 2).1 == Size(15, 15) && |Descend(Size(62, 62), [], 4, 2).0| == 2;
    assert Descend(Size(125, 125), [], 3, 3).1 == Size(15, 15) && |Descend(Size(125, 125), [], 3, 3).0| == 3;
    assert Descend(Size(250, 250), [], 2, 4).1 == Size(15, 15) && |Descend(Size(250, 250), [], 2, 4).0| == 4;
    assert Descend(Size(500, 500), [], 1, 5).1 == Size(15, 15) && |Descend(Size(500, 500), [], 1, 5).0| == 5;
    assert Descend(window, [], 0, 6).1 == Size(15, 15) && |Descend(window, [], 0, 6).0| == 6;
    assert !Descend(window, [], 0, 6).2;
    forall k | k >= 1 ensures !Reaches(TwiceN(Size(15, 15), k), window) {
      NeverThousandFrom15(k);
    }
    ClimbNoReach(Size(15, 15), window, [], 6, CLIMB_BOUND);
  }
}
