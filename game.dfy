/** The global state of lightballs.c and the routines that update it: the
    spheres[] array and score, the third-person camera, the bike's tire and
    handlebar angles, the frame counter and the light. */
module Game {
  import opened Geometry
  import opened Spheres

  /** Pitch limits motion enforces. */
  const PitchMin: int := -30
  const PitchMax: int := 90

  /** The bound of the q / z wrap. */
  const FullTurn: int := 360

  /** FRAME_RATE_SAMPLES. */
  const FrameRateSamples: nat := 50

  /** lightHeight. */
  const LightHeight: real := 20.0

  /** glutMouseFunc codes of the event mouse reacts to. */
  const LeftButton: int := 0
  const ButtonDown: int := 0

  /** The key code of Escape. */
  const Escape: int := 27

  /** struct ThirdPersonCamera_t. vecRot.x (pitch) and vecRot.y (yaw)
      only ever change by whole degrees, fLastX and fLastY only ever hold
      pointer coordinates, so they are integers here; vecRot.z is never
      touched and is not modelled. */
  datatype Camera = Camera(pos: Vector3, pitch: int, yaw: int, radius: real, lastX: int, lastY: int)

  /** The sine and cosine of the camera's yaw and the sine of its pitch,
      in radians, as key computes them before moving the camera. */
  datatype Trig = Trig(sinYaw: real, cosYaw: real, sinPitch: real)

  /** Distance between two integers. */
  function Gap(a: int, b: int): nat
  {
    if a >= b then a - b else b - a
  }

  /** The two pitch resets of motion. The result is the pitch in
      [-30, 90] closest to p: p itself when it is in range. */
  function ClampPitch(p: int): (r: int)
    ensures PitchMin <= r <= PitchMax
    ensures PitchMin <= p <= PitchMax ==> r == p
    ensures forall q :: PitchMin <= q <= PitchMax ==> Gap(r, p) <= Gap(q, p)
  {
    var low := if p < PitchMin then PitchMin else p;
    if low > PitchMax then PitchMax else low
  }

  /** The handlebar tri-state motion sets from the vertical pointer move:
      1, -1 or 0 as d is positive, negative or 0. */
  function Sign(d: int): (h: int)
    ensures -1 <= h <= 1
    ensures h * Gap(d, 0) == d
    ensures d == 0 ==> h == 0
  {
    if d > 0 then 1 else if d < 0 then -1 else 0
  }

  /** Key q: pitch up by one degree, wrapping above 360. */
  function PitchUp(p: int): (r: int)
    ensures -FullTurn <= p <= FullTurn ==> -FullTurn <= r <= FullTurn
    ensures (r - (p + 1)) % FullTurn == 0
  {
    if p + 1 > FullTurn then p + 1 - FullTurn else p + 1
  }

  /** Key z: pitch down by one degree, wrapping below -360. */
  function PitchDown(p: int): (r: int)
    ensures -FullTurn <= p <= FullTurn ==> -FullTurn <= r <= FullTurn
    ensures (r - (p - 1)) % FullTurn == 0
  {
    if p - 1 < -FullTurn then p - 1 + FullTurn else p - 1
  }

  /** q then z, and z then q, give the pitch back wherever no wrap
      happens, and a wrap happens only at the ends of [-360, 360]. */
  lemma PitchKeysInverse(p: int)
    ensures -FullTurn <= p < FullTurn ==> PitchDown(PitchUp(p)) == p
    ensures -FullTurn < p <= FullTurn ==> PitchUp(PitchDown(p)) == p
    ensures PitchUp(FullTurn) == 1 && PitchDown(-FullTurn) == -1
  {
  }

  /** q and z leave the pitch where motion put it only up to 360 degrees:
      from 90, a q reaches 91, outside motion's range. */
  lemma PitchKeysLeaveMotionRange()
    ensures PitchUp(PitchMax) == PitchMax + 1 && PitchDown(PitchMin) == PitchMin - 1
  {
  }

  /** The pitch after key k. */
  function PitchAfterKey(k: char, p: int): int
  {
    if k == 'q' then PitchUp(p) else if k == 'z' then PitchDown(p) else p
  }

  /** The tire angle after key k: w rolls it back 10 degrees, s forward. */
  function TireAfterKey(k: char, t: int): int
  {
    if k == 'w' then t - 10 else if k == 's' then t + 10 else t
  }

  /** The handlebar after key k: w and s straighten it, d and a turn it. */
  function HandleAfterKey(k: char, h: int): int
  {
    if k == 'w' || k == 's' then 0
    else if k == 'd' then 1
    else if k == 'a' then -1
    else h
  }

  /** The camera position after key k: w and s move along the view
      direction, d and a sideways by half a unit. */
  function PositionAfterKey(k: char, pos: Vector3, trig: Trig): Vector3
  {
    if k == 'w' then Vector3(pos.x + trig.sinYaw, pos.y - trig.sinPitch, pos.z - trig.cosYaw)
    else if k == 's' then Vector3(pos.x - trig.sinYaw, pos.y + trig.sinPitch, pos.z + trig.cosYaw)
    else if k == 'd' then Vector3(pos.x + trig.cosYaw * 0.5, pos.y, pos.z + trig.sinYaw * 0.5)
    else if k == 'a' then Vector3(pos.x - trig.cosYaw * 0.5, pos.y, pos.z - trig.sinYaw * 0.5)
    else pos
  }

  /** Only q and z change the pitch; w, s, d, a keep it and the handlebar
      stays in {-1, 0, 1}. */
  lemma KeyRanges(k: char, p: int, h: int)
    requires -FullTurn <= p <= FullTurn && -1 <= h <= 1
    ensures -FullTurn <= PitchAfterKey(k, p) <= FullTurn
    ensures k != 'q' && k != 'z' ==> PitchAfterKey(k, p) == p
    ensures -1 <= HandleAfterKey(k, h) <= 1
  {
  }

  /** Forward then back (w then s, both read at the same yaw and pitch)
      returns the camera and the tire to where they were and leaves the
      handlebar straight; so does d then a. */
  lemma KeysUndo(pos: Vector3, t: int, h: int, trig: Trig)
    ensures PositionAfterKey('s', PositionAfterKey('w', pos, trig), trig) == pos
    ensures TireAfterKey('s', TireAfterKey('w', t)) == t
    ensures HandleAfterKey('s', HandleAfterKey('w', h)) == 0
    ensures PositionAfterKey('a', PositionAfterKey('d', pos, trig), trig) == pos
    ensures HandleAfterKey('a', HandleAfterKey('d', h)) == -1
  {
  }

  /** getFPS's counter: ++FrameCount, back to 0 at 50. */
  function NextFrameCount(c: int): (r: int)
    ensures 0 <= c < FrameRateSamples ==> 0 <= r < FrameRateSamples
    ensures 0 <= c ==> (r == 0 <==> c + 1 >= FrameRateSamples)
  {
    if c + 1 >= FrameRateSamples then 0 else c + 1
  }

  /** The counter after n frames from the start. */
  function FrameCountAfter(n: nat): int
  {
    if n == 0 then 0 else NextFrameCount(FrameCountAfter(n - 1))
  }

  /** The counter is the number of frames modulo 50, so the frame rate is
      sampled on every 50th frame. */
  lemma {:induction false} FrameCountIsModulo(n: nat)
    ensures FrameCountAfter(n) == n % FrameRateSamples
  {
    if n > 0 {
      FrameCountIsModulo(n - 1);
    }
  }

  /** lightPosition as render sets it, from the cosine and sine of
      lightAngle. Against the floor plane its dot product is 1600 * 20, never
      0, wherever the light has turned to, so the shadow matrix of render
      maps every floor point to a nonzero multiple of itself. */
  function LightPosition(cosAngle: real, sinAngle: real): (l: Vec4)
    ensures Dot4(FloorPlane(), l) == 32000.0
  {
    var l := [40.0 * cosAngle, LightHeight, 40.0 * sinAngle, 0.0];
    FloorPlaneDot(l);
    l
  }

  /** The global state. */
  class Scene {
    var spheres: array<Sphere>
    var score: int
    var camera: Camera
    var tireAngle: int
    var handleAngle: int
    var frameCount: int
    var lightAngle: real
    var lightMoving: bool
    var lightPosition: Vec4
    var floorPlane: Vec4
    var floorShadow: Mat4

    /** What every routine keeps: 20 well-formed spheres, a score made of
        whole 100s, the pitch within the q / z wrap, the handlebar a
        tri-state, the frame counter below 50 and the floor plane of init. */
    predicate Valid()
      reads this, spheres
    {
      spheres.Length == SphereCount &&
      (forall i :: 0 <= i < spheres.Length ==> WellFormed(spheres[i])) &&
      score >= 0 && score % 100 == 0 &&
      -FullTurn <= camera.pitch <= FullTurn &&
      -1 <= handleAngle <= 1 &&
      0 <= frameCount < FrameRateSamples &&
      floorPlane == FloorPlane()
    }

    /** init: spheres_init with the 40 rand() results it draws (x then z,
        sphere after sphere), the zeroed camera with radius 10, and the
        floor plane through floorVertices[1..3]. The statics start at 0. */
    constructor (rands: seq<nat>)
      requires |rands| == 2 * SphereCount
      ensures Valid() && fresh(spheres)
      ensures forall i :: 0 <= i < SphereCount ==> spheres[i] == InitialSphere(rands[2 * i], rands[2 * i + 1])
      ensures score == 0 && tireAngle == 0 && handleAngle == 0 && frameCount == 0
      ensures camera == Camera(Vector3(0.0, 0.0, 0.0), 0, 0, 10.0, 0, 0)
      ensures lightAngle == 0.0 && !lightMoving
    {
      var zero: Vec4 := [0.0, 0.0, 0.0, 0.0];
      spheres := new Sphere[SphereCount](_ => InitialSphere(0, 0));
      score := 0;
      camera := Camera(Vector3(0.0, 0.0, 0.0), 0, 0, 10.0, 0, 0);
      tireAngle, handleAngle, frameCount := 0, 0, 0;
      lightAngle, lightMoving := 0.0, false;
      lightPosition := zero;
      floorPlane := FloorPlane();
      floorShadow := [zero, zero, zero, zero];
      new;
      SpheresInit(rands);
    }

    /** spheres_init: sphere i from rand() results 2i (x) and 2i + 1 (z). */
    method SpheresInit(rands: seq<nat>)
      requires spheres.Length == SphereCount && |rands| == 2 * SphereCount
      modifies spheres
      ensures forall i :: 0 <= i < SphereCount ==> spheres[i] == InitialSphere(rands[2 * i], rands[2 * i + 1])
      ensures forall i :: 0 <= i < SphereCount ==> WellFormed(spheres[i])
    {
      var i := 0;
      while i < SphereCount
        invariant 0 <= i <= SphereCount
        invariant forall j :: 0 <= j < i ==> spheres[j] == InitialSphere(rands[2 * j], rands[2 * j + 1])
      {
        spheres[i] := InitialSphere(rands[2 * i], rands[2 * i + 1]);
        i := i + 1;
      }
      forall j | 0 <= j < SphereCount ensures WellFormed(spheres[j]) {
        InitialSphereState(rands[2 * j], rands[2 * j + 1]);
      }
    }

    /** The state changes of spheres_render: every sphere takes one
        life-cycle step; clock[i] is the tick count read at sphere i. */
    method SpheresRender(clock: seq<u32>)
      requires Valid() && |clock| == SphereCount
      modifies spheres
      ensures Valid()
      ensures forall i :: 0 <= i < SphereCount ==> spheres[i] == LifeStep(old(spheres[i]), clock[i])
    {
      var i := 0;
      while i < SphereCount
        invariant 0 <= i <= SphereCount
        invariant forall j :: 0 <= j < i ==> spheres[j] == LifeStep(old(spheres[j]), clock[j])
        invariant forall j :: i <= j < SphereCount ==> spheres[j] == old(spheres[j])
        invariant forall j :: 0 <= j < SphereCount ==> WellFormed(spheres[j])
      {
        LifeStepInvariant(spheres[i], clock[i]);
        spheres[i] := LifeStep(spheres[i], clock[i]);
        i := i + 1;
      }
    }

    /** calculate_distances: every sphere's distance to the negated camera. */
    method CalculateDistances()
      requires Valid()
      modifies spheres
      ensures Valid()
      ensures forall i :: 0 <= i < SphereCount ==> spheres[i] == WithDistance(old(spheres[i]), camera.pos)
    {
      var i := 0;
      while i < SphereCount
        invariant 0 <= i <= SphereCount
        invariant forall j :: 0 <= j < i ==> spheres[j] == WithDistance(old(spheres[j]), camera.pos)
        invariant forall j :: i <= j < SphereCount ==> spheres[j] == old(spheres[j])
        invariant forall j :: 0 <= j < SphereCount ==> WellFormed(spheres[j])
      {
        DistanceFormula(spheres[i], camera.pos);
        spheres[i] := WithDistance(spheres[i], camera.pos);
        i := i + 1;
      }
    }

    /** The first loop of the preselect branch of do_selection: every
        selection flag cleared, nothing else changed. */
    method ClearSelection()
      requires Valid()
      modifies spheres
      ensures Valid()
      ensures forall i :: 0 <= i < SphereCount ==> spheres[i] == old(spheres[i]).(selected := false)
    {
      var i := 0;
      while i < SphereCount
        invariant 0 <= i <= SphereCount
        invariant forall j :: 0 <= j < i ==> spheres[j] == old(spheres[j]).(selected := false)
        invariant forall j :: i <= j < SphereCount ==> spheres[j] == old(spheres[j])
      {
        spheres[i] := spheres[i].(selected := false);
        i := i + 1;
      }
    }

    /** The preselect branch of do_selection: clear every flag, then set
        the flag of each name in the first `hits` records. Only the flags
        change, and afterwards the selected spheres are exactly the names
        hit (MarkedPool gives what follows from that). */
    method MarkSelection(buffer: seq<u32>, hits: int)
      requires Valid() && ValidHits(buffer, hits, spheres[..])
      modifies spheres
      ensures Valid()
      ensures forall i :: 0 <= i < SphereCount ==> spheres[i] == Marked(old(spheres[i]), i, buffer, hits)
    {
      ghost var pool := spheres[..];
      ClearSelection();
      var k := 0;
      while k < hits
        invariant 0 <= k <= SphereCount
        invariant hits >= 0 ==> k <= hits
        invariant hits < 0 ==> k == 0
        invariant forall j :: 0 <= j < SphereCount ==> spheres[j] == Marked(pool[j], j, buffer, k)
      {
        var name := HitName(buffer, k);
        assert name < SphereCount;
        spheres[name] := spheres[name].(selected := true);
        k := k + 1;
      }
      assert hits < 0 ==> HitNames(buffer, hits) == HitNames(buffer, k);
    }

    /** kill_selected_object: every selected sphere, dead or not, becomes
        dead from the tick count read at it (clock[i]), and the score rises
        by 100 for each. */
    method KillSelectedObject(clock: seq<u32>)
      requires Valid() && |clock| == SphereCount
      modifies this`score, spheres
      ensures Valid()
      ensures score == old(score) + 100 * CountSelected(old(spheres[..]))
      ensures forall i :: 0 <= i < SphereCount ==> spheres[i] == KillStep(old(spheres[i]), clock[i])
    {
      ghost var pool := spheres[..];
      var i := 0;
      while i < SphereCount
        invariant 0 <= i <= SphereCount
        invariant score == old(score) + 100 * CountSelected(pool[..i])
        invariant forall j :: 0 <= j < i ==> spheres[j] == KillStep(pool[j], clock[j])
        invariant forall j :: i <= j < SphereCount ==> spheres[j] == pool[j]
        invariant forall j :: 0 <= j < SphereCount ==> WellFormed(spheres[j])
      {
        assert pool[..i + 1][..i] == pool[..i];
        if spheres[i].selected {
          score := score + 100;
          spheres[i] := spheres[i].(dead := true, deathTime := clock[i]);
        }
        i := i + 1;
      }
      assert pool[..SphereCount] == pool;
    }

    /** The state changes of do_selection once the selection pass has
        produced `hits` records in `buffer`: mark in preselect mode, kill
        otherwise (the records of a firing pass are not used). */
    method DoSelection(preselect: bool, buffer: seq<u32>, hits: int, clock: seq<u32>)
      requires Valid() && |clock| == SphereCount
      requires preselect ==> ValidHits(buffer, hits, spheres[..])
      modifies this`score, spheres
      ensures Valid()
      ensures preselect ==> score == old(score)
      ensures preselect ==>
        forall i :: 0 <= i < SphereCount ==> spheres[i] == Marked(old(spheres[i]), i, buffer, hits)
      ensures !preselect ==> score == old(score) + 100 * CountSelected(old(spheres[..]))
      ensures !preselect ==>
        forall i :: 0 <= i < SphereCount ==> spheres[i] == KillStep(old(spheres[i]), clock[i])
    {
      if preselect {
        MarkSelection(buffer, hits);
      } else {
        KillSelectedObject(clock);
      }
    }

    /** mouse: a left-button press fires at the viewport centre, killing
        the spheres the last preselect marked. */
    method Mouse(button: int, state: int, clock: seq<u32>)
      requires Valid() && |clock| == SphereCount
      modifies this`score, spheres
      ensures Valid()
      ensures button == LeftButton && state == ButtonDown ==>
        score == old(score) + 100 * CountSelected(old(spheres[..]))
      ensures button == LeftButton && state == ButtonDown ==>
        forall i :: 0 <= i < SphereCount ==> spheres[i] == KillStep(old(spheres[i]), clock[i])
      ensures !(button == LeftButton && state == ButtonDown) ==>
        score == old(score) && spheres[..] == old(spheres[..])
    {
      if button == LeftButton && state == ButtonDown {
        DoSelection(false, [], 0, clock);
      }
    }

    /** motion: yaw follows the horizontal pointer move, pitch the vertical
        one clamped to [-30, 90], the handlebar shows the sign of the
        vertical move, and the pointer position is remembered. */
    method Motion(x: int, y: int)
      requires Valid()
      modifies this`camera, this`handleAngle
      ensures Valid()
      ensures camera == old(camera).(
        pitch := ClampPitch(old(camera.pitch) + (y - old(camera.lastY))),
        yaw := old(camera.yaw) + (x - old(camera.lastX)),
        lastX := x, lastY := y)
      ensures handleAngle == Sign(y - old(camera.lastY))
    {
      var diffx := x - camera.lastX;
      var diffy := y - camera.lastY;
      camera := camera.(lastX := x, lastY := y);
      camera := camera.(pitch := camera.pitch + diffy, yaw := camera.yaw + diffx);
      if diffy > 0 {
        handleAngle := 1;
      } else if diffy < 0 {
        handleAngle := -1;
      } else {
        handleAngle := 0;
      }
      if camera.pitch < PitchMin {
        camera := camera.(pitch := PitchMin);
      }
      if camera.pitch > PitchMax {
        camera := camera.(pitch := PitchMax);
      }
    }

    /** key: q / z pitch with the 360 wrap, w / s / d / a move the camera
        and turn the tire and handlebar; Escape asks to quit. */
    method Key(k: char, trig: Trig) returns (quit: bool)
      requires Valid()
      modifies this`camera, this`tireAngle, this`handleAngle
      ensures Valid()
      ensures camera == old(camera).(
        pitch := PitchAfterKey(k, old(camera.pitch)),
        pos := PositionAfterKey(k, old(camera.pos), trig))
      ensures tireAngle == TireAfterKey(k, old(tireAngle))
      ensures handleAngle == HandleAfterKey(k, old(handleAngle))
      ensures quit <==> k as int == Escape
    {
      if k == 'q' {
        camera := camera.(pitch := camera.pitch + 1);
        if camera.pitch > FullTurn {
          camera := camera.(pitch := camera.pitch - FullTurn);
        }
      }
      if k == 'z' {
        camera := camera.(pitch := camera.pitch - 1);
        if camera.pitch < -FullTurn {
          camera := camera.(pitch := camera.pitch + FullTurn);
        }
      }
      var pos := camera.pos;
      if k == 'w' {
        camera := camera.(pos := Vector3(pos.x + trig.sinYaw, pos.y - trig.sinPitch, pos.z - trig.cosYaw));
        tireAngle := tireAngle - 10;
        handleAngle := 0;
      }
      if k == 's' {
        camera := camera.(pos := Vector3(pos.x - trig.sinYaw, pos.y + trig.sinPitch, pos.z + trig.cosYaw));
        tireAngle := tireAngle + 10;
        handleAngle := 0;
      }
      if k == 'd' {
        camera := camera.(pos := Vector3(pos.x + trig.cosYaw * 0.5, pos.y, pos.z + trig.sinYaw * 0.5));
        handleAngle := 1;
      }
      if k == 'a' {
        camera := camera.(pos := Vector3(pos.x - trig.cosYaw * 0.5, pos.y, pos.z - trig.sinYaw * 0.5));
        handleAngle := -1;
      }
      quit := k as int == Escape;
    }

    /** getFPS, counter part: `sampled` says whether this frame recomputed
        the frame rate and reset the counter. */
    method GetFPS() returns (sampled: bool)
      requires Valid()
      modifies this`frameCount
      ensures Valid()
      ensures frameCount == NextFrameCount(old(frameCount))
      ensures sampled <==> old(frameCount) + 1 >= FrameRateSamples
    {
      frameCount := frameCount + 1;
      sampled := frameCount >= FrameRateSamples;
      if sampled {
        frameCount := 0;
      }
    }

    /** idle: the light turns 0.03 radians per call unless lightMoving. */
    method Idle()
      modifies this`lightAngle
      ensures lightAngle == if lightMoving then old(lightAngle) else old(lightAngle) + 0.03
    {
      if !lightMoving {
        lightAngle := lightAngle + 0.03;
      }
    }

    /** The state changes of one render: light position and shadow matrix,
        distances, preselect (whose hit records are `buffer` and `hits`),
        the life-cycle step of every sphere, and the frame counter.
        cosAngle and sinAngle are the cosine and sine of lightAngle. The
        shadow matrix flattens every point onto the floor. */
    method Render(clock: seq<u32>, cosAngle: real, sinAngle: real, buffer: seq<u32>, hits: int)
      requires Valid() && |clock| == SphereCount
      requires ValidHits(buffer, hits, spheres[..])
      modifies this, spheres
      ensures Valid() && spheres == old(spheres)
      ensures lightPosition == LightPosition(cosAngle, sinAngle)
      ensures floorShadow == ShadowMatrix(floorPlane, lightPosition)
      ensures forall p :: Transform(Flatten(floorShadow), p)[1] == 0.0
      ensures forall i :: 0 <= i < SphereCount ==>
        spheres[i] == LifeStep(Marked(WithDistance(old(spheres[i]), camera.pos), i, buffer, hits), clock[i])
      ensures frameCount == NextFrameCount(old(frameCount))
      ensures score == old(score) && camera == old(camera) && floorPlane == old(floorPlane)
      ensures tireAngle == old(tireAngle) && handleAngle == old(handleAngle)
      ensures lightAngle == old(lightAngle) && lightMoving == old(lightMoving)
    {
      lightPosition := LightPosition(cosAngle, sinAngle);
      floorShadow := ShadowMatrix(floorPlane, lightPosition);
      forall p: Vec4 ensures Transform(Flatten(floorShadow), p)[1] == 0.0 {
        FloorShadowFlattens(lightPosition, p);
      }
      CalculateDistances();
      assert forall i :: 0 <= i < SphereCount ==> spheres[i].sizeTenths == old(spheres[i]).sizeTenths;
      DoSelection(true, buffer, hits, clock);
      SpheresRender(clock);
      var _ := GetFPS();
    }
  }
}
