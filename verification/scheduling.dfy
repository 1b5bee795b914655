/**
 * Per-frame light scheduling, as values: which lights of a frame are kept,
 * in what order, which of them are queued for a shadow-map update, how many
 * queued updates a frame performs, and which shader slots the lighting pass
 * gives to the kept lights. Distances are abstracted to integers, since only
 * their order matters.
 */
module Scheduling {
  import opened LruSpec

  /** A light of the frame with its distance to the viewer. */
  datatype LightDistance = LightDistance(light: Light, distance: int)

  // ---------------------------------------------------------------------------
  // Classification. Each list is defined by recursion on its last element, so
  // that the loop that pushes onto it follows the definition step by step.

  /** The virtual point lights of s, in order. */
  function Vpls(s: seq<LightDistance>): (r: seq<LightDistance>)
    ensures |r| <= |s|
    ensures forall x :: x in r <==> x in s && x.light.isVirtual
    decreases |s|
  {
    if s == [] then []
    else
      var init, last := s[..|s| - 1], s[|s| - 1];
      assert s == init + [last];
      if last.light.isVirtual then Vpls(init) + [last] else Vpls(init)
  }

  /** The lights of s that are not virtual, in order. */
  function Regulars(s: seq<LightDistance>): (r: seq<LightDistance>)
    ensures |r| <= |s|
    ensures forall x :: x in r <==> x in s && !x.light.isVirtual
    decreases |s|
  {
    if s == [] then []
    else
      var init, last := s[..|s| - 1], s[|s| - 1];
      assert s == init + [last];
      if !last.light.isVirtual then Regulars(init) + [last] else Regulars(init)
  }

  /** The lights of s that are not virtual and cast shadows, in order. */
  function ShadowCasters(s: seq<LightDistance>, casts: set<Light>): (r: seq<LightDistance>)
    ensures |r| <= |s|
    ensures forall x :: x in r <==> x in s && !x.light.isVirtual && x.light in casts
    decreases |s|
  {
    if s == [] then []
    else
      var init, last := s[..|s| - 1], s[|s| - 1];
      assert s == init + [last];
      if !last.light.isVirtual && last.light in casts then ShadowCasters(init, casts) + [last]
      else ShadowCasters(init, casts)
  }

  /** Every light of the frame lands in exactly one of the VPL and regular lists. */
  lemma {:induction false} ClassificationPartitions(s: seq<LightDistance>)
    ensures |Vpls(s)| + |Regulars(s)| == |s|
    ensures multiset(Vpls(s)) + multiset(Regulars(s)) == multiset(s)
    decreases |s|
  {
    if s != [] {
      ClassificationPartitions(s[..|s| - 1]);
      assert s == s[..|s| - 1] + [s[|s| - 1]];
    }
  }

  /** The shadow list is the regular list with the non-casters left out. */
  lemma {:induction false} CastersAreRegular(s: seq<LightDistance>, casts: set<Light>)
    ensures |ShadowCasters(s, casts)| <= |Regulars(s)|
    ensures ShadowCasters(s, casts) == ShadowCasters(Regulars(s), casts)
    decreases |s|
  {
    if s != [] {
      var init, last := s[..|s| - 1], s[|s| - 1];
      CastersAreRegular(init, casts);
      var r := Regulars(init);
      if !last.light.isVirtual {
        assert (r + [last])[..|r|] == r;
      }
    }
  }

  // ---------------------------------------------------------------------------
  // Sorting by distance and truncating to a cap

  predicate SortedByDistance(s: seq<LightDistance>) {
    forall i, j :: 0 <= i < j < |s| ==> s[i].distance <= s[j].distance
  }

  /** x placed before the first element of s that is farther away. */
  function InsertByDistance(x: LightDistance, s: seq<LightDistance>): (r: seq<LightDistance>)
    requires SortedByDistance(s)
    ensures |r| == |s| + 1
    ensures forall y :: y in r <==> y in s || y == x
    ensures SortedByDistance(r)
    ensures multiset(r) == multiset(s) + multiset{x}
    decreases |s|
  {
    if s == [] then [x]
    else if x.distance <= s[0].distance then [x] + s
    else
      assert s == [s[0]] + s[1..];
      var rest := InsertByDistance(x, s[1..]);
      InsertedAfterHead(s[0], s[1..], x, rest);
      [s[0]] + rest
  }

  /** Putting the head of a sorted list back in front of its tail with x inserted keeps it sorted. */
  lemma InsertedAfterHead(h: LightDistance, t: seq<LightDistance>, x: LightDistance, rest: seq<LightDistance>)
    requires SortedByDistance([h] + t) && h.distance < x.distance
    requires SortedByDistance(rest) && forall y :: y in rest <==> y in t || y == x
    ensures SortedByDistance([h] + rest)
  {
    var r := [h] + rest;
    forall i, j | 0 <= i < j < |r| ensures r[i].distance <= r[j].distance {
      if i > 0 {
        assert r[i] == rest[i - 1] && r[j] == rest[j - 1];
      } else {
        assert r[j] == rest[j - 1] && rest[j - 1] in rest;
        if rest[j - 1] != x {
          var m :| 0 <= m < |t| && t[m] == rest[j - 1];
          assert ([h] + t)[0] == h && ([h] + t)[m + 1] == t[m];
        }
      }
    }
  }

  /**
   * The frame's lists ordered nearest first. The renderer uses an unstable
   * sort; this is one of the orders it may produce (lights at equal distance
   * keep their order).
   */
  function SortByDistance(s: seq<LightDistance>): (r: seq<LightDistance>)
    ensures SortedByDistance(r)
    ensures multiset(r) == multiset(s)
    ensures |r| == |s|
    decreases |s|
  {
    if s == [] then []
    else
      assert s == s[..|s| - 1] + [s[|s| - 1]];
      InsertByDistance(s[|s| - 1], SortByDistance(s[..|s| - 1]))
  }

  /** A list cut down to at most cap entries. */
  function Truncate(s: seq<LightDistance>, cap: nat): (r: seq<LightDistance>)
    ensures |r| == if |s| > cap then cap else |s|
    ensures r == s[..|r|]
  {
    if |s| > cap then s[..cap] else s
  }

  /** The list a frame keeps: sorted, then truncated. */
  function Kept(s: seq<LightDistance>, cap: nat): seq<LightDistance> {
    Truncate(SortByDistance(s), cap)
  }

  /**
   * The kept lights are the nearest ones: no dropped light is nearer than a
   * kept one, and a list within its cap loses nothing.
   */
  lemma KeptAreNearest(s: seq<LightDistance>, cap: nat)
    ensures SortedByDistance(Kept(s, cap))
    ensures |Kept(s, cap)| <= cap
    ensures |s| <= cap ==> multiset(Kept(s, cap)) == multiset(s)
    ensures forall x, y :: x in Kept(s, cap) && y in multiset(s) - multiset(Kept(s, cap)) ==>
                           x.distance <= y.distance
  {
    var sorted := SortByDistance(s);
    var k := Kept(s, cap);
    var dropped := sorted[|k|..];
    assert sorted == k + dropped;
    assert multiset(s) - multiset(k) == multiset(dropped);
    SortedSplit(sorted, |k|);
  }

  /** In a sorted list, nothing after position n is nearer than anything before it. */
  lemma SortedSplit(s: seq<LightDistance>, n: nat)
    requires SortedByDistance(s) && n <= |s|
    ensures forall x, y :: x in s[..n] && y in s[n..] ==> x.distance <= y.distance
  {
    forall x, y | x in s[..n] && y in s[n..] ensures x.distance <= y.distance {
      var i :| 0 <= i < n && s[..n][i] == x;
      var j :| 0 <= j < |s| - n && s[n..][j] == y;
      assert s[i] == x && s[n + j] == y;
    }
  }

  // ---------------------------------------------------------------------------
  // Queueing and draining shadow-map updates

  /** The cache a light draws its shadow map from: the VPL cache for virtual lights. */
  function CacheFor(l: Light, regular: CacheState, vpl: CacheState): (c: CacheState)
    ensures l.isVirtual ==> c == vpl
    ensures !l.isVirtual ==> c == regular
  {
    if l.isVirtual then vpl else regular
  }

  /** The lights of s with no shadow map in their cache, in order: the ones queued for an update. */
  function Missing(s: seq<LightDistance>, regular: CacheState, vpl: CacheState): (r: seq<Light>)
    ensures |r| <= |s|
    decreases |s|
  {
    if s == [] then []
    else
      var init, last := s[..|s| - 1], s[|s| - 1];
      var prev := Missing(init, regular, vpl);
      if !Exists(CacheFor(last.light, regular, vpl), last.light) then prev + [last.light] else prev
  }

  /** A light is queued exactly when it is in the list and its cache holds no shadow map for it. */
  lemma {:induction false} MissingMembers(s: seq<LightDistance>, regular: CacheState, vpl: CacheState)
    ensures forall l :: l in Missing(s, regular, vpl) <==> l in LightsOf(s) && !Exists(CacheFor(l, regular, vpl), l)
    decreases |s|
  {
    if s != [] {
      var init, last := s[..|s| - 1], s[|s| - 1];
      MissingMembers(init, regular, vpl);
      assert s == init + [last];
      LightsOfAppend(init, [last]);
    }
  }

  /** What a frame appends to the update queue: the shadow casters first, then the VPLs. */
  function Enqueued(casters: seq<LightDistance>, vpls: seq<LightDistance>,
                    regular: CacheState, vpl: CacheState): seq<Light> {
    Missing(casters, regular, vpl) + Missing(vpls, regular, vpl)
  }

  /** How many queued updates a frame pops: at most the cap, at most the queue, none for a cap below one. */
  function DrainCount(maxUpdates: int, queued: nat): (n: nat)
    ensures n <= queued
    ensures maxUpdates > 0 ==> n <= maxUpdates
    ensures n < queued && maxUpdates > 0 ==> n == maxUpdates
    ensures maxUpdates <= 0 ==> n == 0
  {
    if maxUpdates <= 0 then 0
    else if maxUpdates < queued then maxUpdates
    else queued
  }

  /** The lights of a popped run that cast shadows, in order; the others are popped but skipped. */
  function Casting(ls: seq<Light>, casts: set<Light>): (r: seq<Light>)
    ensures |r| <= |ls|
    ensures forall l :: l in r <==> l in ls && l in casts
    decreases |ls|
  {
    if ls == [] then []
    else
      var init, last := ls[..|ls| - 1], ls[|ls| - 1];
      assert ls == init + [last];
      if last in casts then Casting(init, casts) + [last] else Casting(init, casts)
  }

  /** The lights of ls of one kind, in order. */
  function OfKind(ls: seq<Light>, isVirtual: bool): (r: seq<Light>)
    ensures |r| <= |ls|
    ensures forall l :: l in r <==> l in ls && l.isVirtual == isVirtual
    decreases |ls|
  {
    if ls == [] then []
    else
      var init, last := ls[..|ls| - 1], ls[|ls| - 1];
      assert ls == init + [last];
      if last.isVirtual == isVirtual then OfKind(init, isVirtual) + [last] else OfKind(init, isVirtual)
  }

  // ---------------------------------------------------------------------------
  // Light slots of the lighting pass

  /**
   * The lights given a slot in the lighting pass, in slot order, when room
   * shadow slots are left: VPLs are skipped, and so is a shadow caster that
   * finds no shadow slot left.
   */
  function LightSlots(s: seq<LightDistance>, casts: set<Light>, room: nat): (r: seq<Light>)
    ensures |r| <= |s|
    ensures forall l :: l in r ==> !l.isVirtual
    decreases |s|
  {
    if s == [] then []
    else
      var l := s[0].light;
      if l.isVirtual then LightSlots(s[1..], casts, room)
      else if l in casts then
        if room == 0 then LightSlots(s[1..], casts, room)
        else [l] + LightSlots(s[1..], casts, room - 1)
      else [l] + LightSlots(s[1..], casts, room)
  }

  /** The lights given a shadow slot, in shadow-slot order, when room shadow slots are left. */
  function ShadowSlots(s: seq<LightDistance>, casts: set<Light>, room: nat): (r: seq<Light>)
    ensures |r| <= room
    decreases |s|
  {
    if s == [] || room == 0 then []
    else
      var l := s[0].light;
      if !l.isVirtual && l in casts then [l] + ShadowSlots(s[1..], casts, room - 1)
      else ShadowSlots(s[1..], casts, room)
  }

  /** The lights of a list of lights with distances. */
  function LightsOf(s: seq<LightDistance>): (r: seq<Light>)
    ensures |r| == |s|
    ensures forall i :: 0 <= i < |s| ==> r[i] == s[i].light
    decreases |s|
  {
    if s == [] then [] else [s[0].light] + LightsOf(s[1..])
  }

  /** The shadow slots go to the first room shadow casters of the list, in order. */
  lemma {:induction false} ShadowSlotsAreNearestCasters(s: seq<LightDistance>, casts: set<Light>, room: nat)
    ensures var casters := LightsOf(ShadowCasters(s, casts));
      ShadowSlots(s, casts, room) == casters[..if |casters| < room then |casters| else room]
    decreases |s|
  {
    if s != [] && room > 0 {
      ShadowSlotsAreNearestCasters(s[1..], casts, if !s[0].light.isVirtual && s[0].light in casts then room - 1 else room);
      CastersFront(s, casts);
    }
  }

  /** The shadow casters of a list split at its first element. */
  lemma CastersFront(s: seq<LightDistance>, casts: set<Light>)
    requires s != []
    ensures LightsOf(ShadowCasters(s, casts)) ==
              (if !s[0].light.isVirtual && s[0].light in casts then [s[0].light] else [])
              + LightsOf(ShadowCasters(s[1..], casts))
  {
    assert s == [s[0]] + s[1..];
    CastersAppend([s[0]], s[1..], casts);
    assert [s[0]][..0] == [];
    LightsOfAppend(ShadowCasters([s[0]], casts), ShadowCasters(s[1..], casts));
  }

  /** The shadow casters of a concatenation are those of each part, in order. */
  lemma {:induction false} CastersAppend(a: seq<LightDistance>, b: seq<LightDistance>, casts: set<Light>)
    ensures ShadowCasters(a + b, casts) == ShadowCasters(a, casts) + ShadowCasters(b, casts)
    decreases |b|
  {
    if b == [] {
      assert a + b == a;
    } else {
      var init, last := b[..|b| - 1], b[|b| - 1];
      CastersAppend(a, init, casts);
      assert (a + b)[..|a + b| - 1] == a + init;
      assert (a + b)[|a + b| - 1] == last;
      var ca, ci := ShadowCasters(a, casts), ShadowCasters(init, casts);
      if !last.light.isVirtual && last.light in casts {
        assert ca + (ci + [last]) == (ca + ci) + [last];
      }
    }
  }

  lemma {:induction false} LightsOfAppend(a: seq<LightDistance>, b: seq<LightDistance>)
    ensures LightsOf(a + b) == LightsOf(a) + LightsOf(b)
  {
    assert forall i :: 0 <= i < |a + b| ==> LightsOf(a + b)[i] == (LightsOf(a) + LightsOf(b))[i];
  }

  /** Every light with a shadow slot also has a light slot, and there are never more shadow slots than room. */
  lemma {:induction false} ShadowSlotsHaveLightSlots(s: seq<LightDistance>, casts: set<Light>, room: nat)
    ensures forall l :: l in ShadowSlots(s, casts, room) ==> l in LightSlots(s, casts, room)
    ensures |ShadowSlots(s, casts, room)| <= |LightSlots(s, casts, room)|
    decreases |s|
  {
    if s != [] {
      var l := s[0].light;
      if !l.isVirtual && l in casts && room > 0 {
        ShadowSlotsHaveLightSlots(s[1..], casts, room - 1);
      } else {
        ShadowSlotsHaveLightSlots(s[1..], casts, room);
      }
    }
  }

  /**
   * Which lights are lit: a regular light of the list gets a lighting slot
   * exactly when it casts no shadows or it got a shadow slot; a caster that
   * finds every shadow slot taken is skipped altogether, and VPLs never get one.
   */
  lemma {:induction false} LightSlotsMembers(s: seq<LightDistance>, casts: set<Light>, room: nat)
    ensures forall l :: l in LightSlots(s, casts, room) <==>
              !l.isVirtual && l in LightsOf(s) && (l in casts ==> l in ShadowSlots(s, casts, room))
    decreases |s|
  {
    if s != [] {
      var l := s[0].light;
      assert LightsOf(s) == [l] + LightsOf(s[1..]);
      if !l.isVirtual && l in casts && room > 0 {
        LightSlotsMembers(s[1..], casts, room - 1);
      } else {
        LightSlotsMembers(s[1..], casts, room);
        if room == 0 {
          assert ShadowSlots(s, casts, room) == [] == ShadowSlots(s[1..], casts, room);
        }
      }
    }
  }
}
