/** The targets: struct Sphere_t, the values each field may take, and the
    per-sphere steps that spheres_init, spheres_render, calculate_distances,
    do_selection and kill_selected_object apply to every element of the
    spheres[] array. The loops themselves are methods of Game.Scene. */
module Spheres {
  import opened Geometry

  /** sphere_count and respawn_time. */
  const SphereCount: nat := 20
  const RespawnTime: nat := 5000

  /** 2^32: C's unsigned int wraps modulo this. */
  const Modulus: int := 0x1_0000_0000

  /** unsigned int, also the width of GLuint. */
  newtype u32 = n: int | 0 <= n < 0x1_0000_0000

  /** One Sphere_t. The position is stored in units in which the source's
      floats are exact: x and z are whole numbers, y counts halves (the source
      only ever sets 2.0 and 50.0 and subtracts 0.5), and the size counts
      tenths (the source sets 2.0 and subtracts 0.1). `distanceSq` is the
      square of the source's `distance`. */
  datatype Sphere = Sphere(
    x: int,
    yHalves: int,
    z: int,
    selected: bool,
    dead: bool,
    deathTime: u32,
    distanceSq: real,
    sizeTenths: int)

  /** Heights and sizes the source uses, in the units above. */
  const RestHalves: int := 4        // y == 2.0
  const SpawnHalves: int := 100     // y == 50.0
  const FullSizeTenths: int := 20   // size == 2.0

  /** The values a sphere can take: x and z from spheres_init, y between
      the floor height 2 and the respawn height 50, size between 0 and 2. */
  predicate WellFormed(s: Sphere)
  {
    -49 <= s.x <= 50 && -49 <= s.z <= 50 &&
    RestHalves <= s.yHalves <= SpawnHalves &&
    0 <= s.sizeTenths <= FullSizeTenths &&
    s.distanceSq >= 0.0
  }

  /** (rand() % 100) + 1 - 50, for a value r that rand() returned. */
  function RandomCoordinate(r: nat): (c: int)
    ensures -49 <= c <= 50
  {
    (r % 100) + 1 - 50
  }

  /** Every coordinate in [-49, 50] is reached by some rand() result. */
  lemma RandomCoordinateOnto(c: int)
    requires -49 <= c <= 50
    ensures RandomCoordinate((c + 49) as nat) == c
  {
  }

  /** The sphere spheres_init builds from two successive rand() results. */
  function InitialSphere(rx: nat, rz: nat): Sphere
  {
    Sphere(RandomCoordinate(rx), RestHalves, RandomCoordinate(rz),
           false, false, 0, 0.0, FullSizeTenths)
  }

  /** A freshly initialised sphere rests on the floor at full size, alive,
      unselected, with death time and distance 0. */
  lemma InitialSphereState(rx: nat, rz: nat)
    ensures var s := InitialSphere(rx, rz);
      WellFormed(s) && s.yHalves == RestHalves && s.sizeTenths == FullSizeTenths &&
      !s.selected && !s.dead && s.deathTime == 0 && s.distanceSq == 0.0 &&
      s.x == (rx % 100) - 49 && s.z == (rz % 100) - 49
  {
  }

  /** current_time - death_time in unsigned int arithmetic. */
  function Elapsed(now: u32, deathTime: u32): (e: u32)
    ensures deathTime <= now ==> e as int == now as int - deathTime as int
    ensures now < deathTime ==> e as int == now as int - deathTime as int + Modulus
  {
    ((now as int - deathTime as int) % Modulus) as u32
  }

  /** The respawn test of spheres_render. */
  predicate RespawnDue(now: u32, deathTime: u32)
  {
    Elapsed(now, deathTime) as int > RespawnTime
  }

  /** Whatever the death time, a clock that has moved on by d milliseconds
      with 5000 < d < 2^32 triggers the respawn, also when the tick counter
      has wrapped around in between. */
  lemma RespawnAfterDelay(deathTime: u32, d: int)
    requires RespawnTime < d < Modulus
    ensures RespawnDue(((deathTime as int + d) % Modulus) as u32, deathTime)
  {
    var now := ((deathTime as int + d) % Modulus) as u32;
    if deathTime as int + d < Modulus {
      assert now as int == deathTime as int + d;
    } else {
      assert now as int == deathTime as int + d - Modulus;
    }
  }

  /** Within 5000 ms of the death time, with no wrap in between, the sphere
      stays dead. */
  lemma NoRespawnBeforeDelay(deathTime: u32, now: u32)
    requires deathTime <= now && now as int - deathTime as int <= RespawnTime
    ensures !RespawnDue(now, deathTime)
  {
  }

  /** The dead branch of spheres_render: shrink by 0.1 while the size is
      positive, then respawn at height 50 and size 2 once time is up. */
  function DyingStep(s: Sphere, now: u32): Sphere
  {
    var shrunk := if s.sizeTenths > 0 then s.(sizeTenths := s.sizeTenths - 1) else s;
    if RespawnDue(now, s.deathTime)
    then shrunk.(yHalves := SpawnHalves, dead := false, sizeTenths := FullSizeTenths)
    else shrunk
  }

  /** The end of the loop body of spheres_render: above height 2, fall 0.5. */
  function FallStep(s: Sphere): Sphere
  {
    if s.yHalves > RestHalves then s.(yHalves := s.yHalves - 1) else s
  }

  /** One iteration of the spheres_render loop for one sphere; `now` is what
      GetTickCount returns when the loop reaches it (read only if dead). */
  function LifeStep(s: Sphere, now: u32): Sphere
  {
    FallStep(if s.dead then DyingStep(s, now) else s)
  }

  /** The life-cycle step keeps a sphere well formed and never touches its
      x, z, selection flag, death time or distance. */
  lemma LifeStepInvariant(s: Sphere, now: u32)
    requires WellFormed(s)
    ensures var r := LifeStep(s, now);
      WellFormed(r) &&
      r.x == s.x && r.z == s.z && r.selected == s.selected &&
      r.deathTime == s.deathTime && r.distanceSq == s.distanceSq
  {
  }

  /** A dead sphere whose time is not up loses 0.1 of size if it has any
      left, stays dead and falls as usual. */
  lemma DeadSphereShrinks(s: Sphere, now: u32)
    requires s.dead && !RespawnDue(now, s.deathTime)
    ensures var r := LifeStep(s, now);
      r.dead &&
      r.sizeTenths == (if s.sizeTenths > 0 then s.sizeTenths - 1 else s.sizeTenths) &&
      r.yHalves == (if s.yHalves > RestHalves then s.yHalves - 1 else s.yHalves)
  {
  }

  /** A dead sphere whose time is up comes back alive at size 2 and, since
      the fall runs in the same iteration, ends the frame at height 49.5. */
  lemma RespawnedSphereFalls(s: Sphere, now: u32)
    requires s.dead && RespawnDue(now, s.deathTime)
    ensures var r := LifeStep(s, now);
      !r.dead && r.sizeTenths == FullSizeTenths && r.yHalves == SpawnHalves - 1 &&
      r.x == s.x && r.z == s.z && r.deathTime == s.deathTime
  {
  }

  /** The sphere after one spheres_render per clock reading in `clock`. */
  function Frames(s: Sphere, clock: seq<u32>): Sphere
  {
    if clock == [] then s else LifeStep(Frames(s, clock[..|clock| - 1]), clock[|clock| - 1])
  }

  /** A live sphere reaches the floor: after n frames its height is
      max(2, y - 0.5 n), and it does nothing else. */
  lemma {:induction false} LiveSphereComesToRest(s: Sphere, clock: seq<u32>)
    requires !s.dead && s.yHalves >= RestHalves
    ensures Frames(s, clock) ==
      s.(yHalves := if s.yHalves - |clock| > RestHalves then s.yHalves - |clock| else RestHalves)
  {
    if clock != [] {
      LiveSphereComesToRest(s, clock[..|clock| - 1]);
    }
  }

  /** A dead sphere whose time is never up during n frames stays dead, with
      its size max(0, size - 0.1 n). */
  lemma {:induction false} DeadSphereFades(s: Sphere, clock: seq<u32>)
    requires s.dead && s.sizeTenths >= 0
    requires forall k :: 0 <= k < |clock| ==> !RespawnDue(clock[k], s.deathTime)
    ensures Frames(s, clock).dead
    ensures Frames(s, clock).deathTime == s.deathTime
    ensures Frames(s, clock).sizeTenths ==
      if s.sizeTenths - |clock| > 0 then s.sizeTenths - |clock| else 0
  {
    if clock != [] {
      var init := clock[..|clock| - 1];
      assert forall k :: 0 <= k < |init| ==> init[k] == clock[k];
      DeadSphereFades(s, init);
    }
  }

  /** The sphere's position as the Vector3 the source stores. */
  function Position(s: Sphere): Vector3
  {
    Vector3(s.x as real, s.yHalves as real / 2.0, s.z as real)
  }

  /** neg_camera of calculate_distances: x and z of the camera negated,
      y set to 0. */
  function NegatedCamera(camera: Vector3): Vector3
  {
    Vector3(-camera.x, 0.0, -camera.z)
  }

  /** The step of calculate_distances for one sphere. */
  function WithDistance(s: Sphere, camera: Vector3): Sphere
  {
    s.(distanceSq := DistanceSq(NegatedCamera(camera), Position(s)))
  }

  /** The stored distance is (x + cx)^2 + y^2 + (z + cz)^2: the sphere's own
      x and z are not negated and its height is included. Nothing else of
      the sphere changes and it stays well formed. */
  lemma DistanceFormula(s: Sphere, camera: Vector3)
    ensures WithDistance(s, camera).distanceSq ==
      Square(s.x as real + camera.x) + Square(s.yHalves as real / 2.0) + Square(s.z as real + camera.z)
    ensures WithDistance(s, camera).(distanceSq := s.distanceSq) == s
    ensures WellFormed(s) ==> WellFormed(WithDistance(s, camera))
  {
    assert s.x as real - -camera.x == s.x as real + camera.x;
    assert s.z as real - -camera.z == s.z as real + camera.z;
  }

  // ---------------------------------------------------------------------
  // Selection records
  // ---------------------------------------------------------------------

  /** Length of select_buffer: 4 words per sphere. */
  const BufferLength: nat := 80

  /** GLubyte name = select_buffer[i*4+3]: the name of record k, truncated
      to its low byte. */
  function HitName(buffer: seq<u32>, k: nat): (name: nat)
    requires 4 * k + 3 < |buffer|
    ensures name < 256
  {
    (buffer[4 * k + 3] as int % 256) as nat
  }

  /** The hit buffer the selection pass can hand back: 80 words, at most 20
      records (glRenderMode returns -1 on overflow), and each name the index
      of a sphere, drawn because its size was not 0. */
  predicate ValidHits(buffer: seq<u32>, hits: int, spheres: seq<Sphere>)
  {
    |buffer| == BufferLength && hits <= SphereCount && |spheres| == SphereCount &&
    forall k: nat :: k < hits ==> HitName(buffer, k) < SphereCount && spheres[HitName(buffer, k)].sizeTenths != 0
  }

  /** The names in the first n records. */
  function HitNames(buffer: seq<u32>, n: int): set<nat>
    requires 4 * n <= |buffer|
  {
    if n <= 0 then {} else HitNames(buffer, n - 1) + {HitName(buffer, n - 1)}
  }

  /** A sphere index is among the names of the first n records iff one of
      those records carries it. */
  lemma {:induction false} HitNamesMembership(buffer: seq<u32>, n: int, i: nat)
    requires 4 * n <= |buffer|
    ensures i in HitNames(buffer, n) <==> exists k: nat :: k < n && HitName(buffer, k) == i
  {
    if n > 0 {
      HitNamesMembership(buffer, n - 1, i);
      if HitName(buffer, n - 1) == i {
        assert exists k: nat :: k < n && HitName(buffer, k) == i;
      }
    }
  }

  /** Every name in the first n records of a valid buffer is a sphere index. */
  lemma {:induction false} HitNamesInRange(buffer: seq<u32>, hits: int, spheres: seq<Sphere>, n: int)
    requires ValidHits(buffer, hits, spheres) && n <= hits
    ensures forall i :: i in HitNames(buffer, n) ==> i < SphereCount && spheres[i].sizeTenths != 0
  {
    if n > 0 {
      HitNamesInRange(buffer, hits, spheres, n - 1);
    }
  }

  /** The preselect marking applied to sphere i. */
  function Marked(s: Sphere, i: nat, buffer: seq<u32>, hits: int): Sphere
    requires 4 * hits <= |buffer|
  {
    s.(selected := i in HitNames(buffer, hits))
  }

  // ---------------------------------------------------------------------
  // Counting selected spheres
  // ---------------------------------------------------------------------

  /** The number of selected spheres, counted as kill_selected_object's loop
      meets them. */
  function CountSelected(ss: seq<Sphere>): nat
  {
    if ss == [] then 0
    else CountSelected(ss[..|ss| - 1]) + (if ss[|ss| - 1].selected then 1 else 0)
  }

  /** The indices of the selected spheres. */
  function SelectedIndices(ss: seq<Sphere>): set<nat>
  {
    set i: nat | i < |ss| && ss[i].selected
  }

  /** The count is the number of selected indices. */
  lemma {:induction false} CountSelectedIsCardinality(ss: seq<Sphere>)
    ensures CountSelected(ss) == |SelectedIndices(ss)|
  {
    if ss != [] {
      var n := |ss| - 1;
      var init := ss[..n];
      CountSelectedIsCardinality(init);
      if ss[n].selected {
        assert SelectedIndices(ss) == SelectedIndices(init) + {n};
      } else {
        assert SelectedIndices(ss) == SelectedIndices(init);
      }
    }
  }

  /** After the preselect marking, every selected sphere is one that was
      drawn (size not 0), and the number of selected spheres is the number
      of distinct names in the hit records. */
  lemma MarkedPool(before: seq<Sphere>, after: seq<Sphere>, buffer: seq<u32>, hits: int)
    requires ValidHits(buffer, hits, before) && |after| == SphereCount
    requires forall i :: 0 <= i < SphereCount ==> after[i] == Marked(before[i], i, buffer, hits)
    ensures forall i :: 0 <= i < SphereCount && after[i].selected ==> after[i].sizeTenths != 0
    ensures CountSelected(after) == |HitNames(buffer, hits)|
  {
    HitNamesInRange(buffer, hits, before, hits);
    CountSelectedIsCardinality(after);
    assert SelectedIndices(after) == HitNames(buffer, hits);
  }

  /** The loop body of kill_selected_object for one sphere; `now` is what
      GetTickCount returns when the loop reaches it (read only if selected).
      The dead flag is not consulted. */
  function KillStep(s: Sphere, now: u32): Sphere
  {
    if s.selected then s.(dead := true, deathTime := now) else s
  }

  /** The indices of the dead spheres. */
  function DeadIndices(ss: seq<Sphere>): set<nat>
  {
    set i: nat | i < |ss| && ss[i].dead
  }

  /** kill_selected_object over the whole pool: the spheres dead afterwards
      are those dead before together with every selected one, and every
      sphere stays well formed. */
  lemma KilledPool(before: seq<Sphere>, after: seq<Sphere>, clock: seq<u32>)
    requires |after| == |before| == |clock|
    requires forall i :: 0 <= i < |before| ==> after[i] == KillStep(before[i], clock[i])
    ensures DeadIndices(after) == DeadIndices(before) + SelectedIndices(before)
    ensures forall i :: 0 <= i < |before| && WellFormed(before[i]) ==> WellFormed(after[i])
  {
    forall i: nat | i < |before|
      ensures i in DeadIndices(after) <==> i in DeadIndices(before) + SelectedIndices(before)
    {
      assert after[i] == KillStep(before[i], clock[i]);
    }
  }

  /** A kill restarts the respawn delay, also for a selected sphere that was
      already dead and whose old death time was due: for 5000 ms after the
      kill (with no wrap) the life cycle keeps it dead. */
  lemma KillRestartsRespawnDelay(s: Sphere, now: u32, later: u32)
    requires s.selected
    requires now <= later && later as int - now as int <= RespawnTime
    ensures KillStep(s, now).deathTime == now
    ensures LifeStep(KillStep(s, now), later).dead
  {
    NoRespawnBeforeDelay(now, later);
  }
}
