/**
 * The entity slot arena of the fluid simulator (fluid_sim.c, lines 10-72):
 * a world holding a fixed table of MAX_ENTITY_COUNT entity records, each
 * with an `is_valid` flag that marks the slot as in use. Creating an entity
 * takes the lowest free slot; destroying one clears its record to all zero.
 */
module Entities {
  import opened Vectors
  import Collision

  /** MAX_ENTITY_COUNT */
  const MaxEntityCount: nat := 4096
  /** PARTICLE_MASS */
  const ParticleMass: real := 1.0

  datatype Archetype = ArchNil | ArchParticle | ArchBoundary

  datatype Entity = Entity(
    isValid: bool,
    arch: Archetype,
    mass: real,
    position: Vector2,
    velocity: Vector2,
    acceleration: Vector2,
    influence: real,
    density: real,
    pressure: real,
    pressureForce: Vector2,
    pressureAcceleration: Vector2,
    boundaryPoint0: Vector2,
    boundaryPoint1: Vector2,
    boundaryPoint2: Vector2,
    boundaryPoint3: Vector2)

  /** The record `memset(entity, 0, sizeof(Entity))` leaves: a free slot. */
  const ZeroEntity: Entity :=
    Entity(false, ArchNil, 0.0, Zero2, Zero2, Zero2, 0.0, 0.0, 0.0, Zero2, Zero2, Zero2, Zero2, Zero2, Zero2)

  datatype Option<T> = None | Some(value: T)

  // ---------------------------------------------------------------------------
  // The table as a value

  /**
   * The slot `entity_create` picks: the lowest one whose flag is clear, or
   * none when every slot is in use.
   */
  function FirstFree(slots: seq<Entity>): (r: Option<nat>)
    ensures r.Some? ==> r.value < |slots| && !slots[r.value].isValid
    ensures r.Some? ==> forall j | 0 <= j < r.value :: slots[j].isValid
    ensures r.None? <==> forall j | 0 <= j < |slots| :: slots[j].isValid
  {
    if |slots| == 0 then None
    else if !slots[0].isValid then Some(0)
    else
      match FirstFree(slots[1..])
      case None =>
        assert forall j | 1 <= j < |slots| :: slots[j] == slots[1..][j - 1];
        None
      case Some(k) =>
        assert forall j | 1 <= j < k + 1 :: slots[j] == slots[1..][j - 1];
        Some(k + 1)
  }

  /** The number of slots in use. */
  function ValidCount(slots: seq<Entity>): (n: nat)
    ensures n <= |slots|
  {
    if |slots| == 0 then 0
    else (if slots[0].isValid then 1 else 0) + ValidCount(slots[1..])
  }

  /** The first free slot is determined by its three defining facts. */
  lemma FirstFreeIsLowest(slots: seq<Entity>, k: nat)
    requires k < |slots| && !slots[k].isValid
    requires forall j | 0 <= j < k :: slots[j].isValid
    ensures FirstFree(slots) == Some(k)
  {
  }

  /** Writing one slot changes the count by the change of that slot's flag. */
  lemma {:induction false} ValidCountUpdate(slots: seq<Entity>, i: nat, e: Entity)
    requires i < |slots|
    ensures ValidCount(slots[i := e])
         == ValidCount(slots) - (if slots[i].isValid then 1 else 0) + (if e.isValid then 1 else 0)
  {
    if i > 0 {
      assert slots[i := e][1..] == slots[1..][i - 1 := e];
      ValidCountUpdate(slots[1..], i - 1, e);
    } else {
      assert slots[i := e][1..] == slots[1..];
    }
  }

  /** Every slot is in use exactly when the count reaches the length. */
  lemma {:induction false} FullIffAllValid(slots: seq<Entity>)
    ensures ValidCount(slots) == |slots| <==> forall j | 0 <= j < |slots| :: slots[j].isValid
  {
    if |slots| > 0 {
      FullIffAllValid(slots[1..]);
      assert forall j | 1 <= j < |slots| :: slots[j] == slots[1..][j - 1];
    }
  }

  /** entity_create fails exactly when all slots are in use. */
  lemma CreateFailsIffFull(slots: seq<Entity>)
    ensures FirstFree(slots).None? <==> ValidCount(slots) == |slots|
  {
    FullIffAllValid(slots);
  }

  /** Allocation looks only at the flags: records with the same flags allocate alike. */
  lemma {:induction false} SameFlagsSameAllocation(s: seq<Entity>, t: seq<Entity>)
    requires |s| == |t|
    requires forall j | 0 <= j < |s| :: s[j].isValid == t[j].isValid
    ensures FirstFree(s) == FirstFree(t)
    ensures ValidCount(s) == ValidCount(t)
  {
    if |s| > 0 {
      assert forall j | 0 <= j < |s| - 1 :: s[1..][j].isValid == t[1..][j].isValid by {
        forall j | 0 <= j < |s| - 1 ensures s[1..][j].isValid == t[1..][j].isValid {
          assert s[1..][j] == s[j + 1] && t[1..][j] == t[j + 1];
        }
      }
      SameFlagsSameAllocation(s[1..], t[1..]);
    }
  }

  /**
   * A destroyed slot with every slot before it in use is the one the next
   * entity_create returns.
   */
  lemma DestroyedSlotIsReused(slots: seq<Entity>, i: nat)
    requires i < |slots|
    requires forall j | 0 <= j < i :: slots[j].isValid
    ensures FirstFree(slots[i := ZeroEntity]) == Some(i)
  {
    FirstFreeIsLowest(slots[i := ZeroEntity], i);
  }

  /** The record entity_create and setup_particle leave in a cleared slot. */
  function FreshParticle(position: Vector2): Entity {
    ZeroEntity.(isValid := true, arch := ArchParticle, mass := ParticleMass, position := position)
  }

  /** Where the initial scene puts its k-th grid particle: row k / 40, column k % 40. */
  function GridPosition(k: nat): Vector2 {
    Vector2(1.5 * ((k / 40) as real) - 30.0, 1.5 * ((k % 40) as real) - 30.0)
  }

  /** Row i, column j of the grid is the (40 i + j)-th grid particle. */
  lemma GridPositionAt(i: nat, j: nat)
    requires j < 40
    ensures GridPosition(40 * i + j) == Vector2(1.5 * (i as real) - 30.0, 1.5 * (j as real) - 30.0)
  {
    assert (40 * i + j) / 40 == i && (40 * i + j) % 40 == j;
  }

  /** The first n slots of the initial scene are filled and the rest are free. */
  ghost predicate SceneUpTo(slots: seq<Entity>, n: nat) {
    && |slots| == MaxEntityCount
    && ValidCount(slots) == n
    && forall k | 0 <= k < |slots| :: slots[k] == SceneSlot(k, n)
  }

  /** While the scene is being built, the next creation takes slot n. */
  lemma SceneNextFree(slots: seq<Entity>, n: nat)
    requires n < MaxEntityCount && SceneUpTo(slots, n)
    ensures FirstFree(slots) == Some(n)
    ensures slots[n] == ZeroEntity
  {
    FirstFreeIsLowest(slots, n);
  }

  /** Filling slot n of the scene with its entity extends the scene by one slot. */
  lemma SceneStep(slots: seq<Entity>, n: nat)
    requires n < MaxEntityCount && SceneUpTo(slots, n)
    ensures SceneUpTo(slots[n := SceneSlot(n, n + 1)], n + 1)
  {
    ValidCountUpdate(slots, n, SceneSlot(n, n + 1));
  }

  /** A cleared table has no slot in use. */
  lemma {:induction false} ZeroCount(slots: seq<Entity>)
    requires forall k | 0 <= k < |slots| :: slots[k] == ZeroEntity
    ensures ValidCount(slots) == 0
  {
    if |slots| > 0 {
      assert forall k | 0 <= k < |slots| - 1 :: slots[1..][k] == slots[k + 1];
      ZeroCount(slots[1..]);
    }
  }

  /** The boundary entity of the initial scene, outlining [-50, 50] x [-50, 50]. */
  const SceneBoundary: Entity :=
    ZeroEntity.(isValid := true, arch := ArchBoundary,
                boundaryPoint0 := Vector2(-50.0, -50.0), boundaryPoint1 := Vector2(50.0, -50.0),
                boundaryPoint2 := Vector2(50.0, 50.0), boundaryPoint3 := Vector2(-50.0, 50.0))

  /** Slot k of the initial scene once its first n slots are filled. */
  function SceneSlot(k: nat, n: nat): Entity {
    if n <= k then ZeroEntity
    else if k == 0 then FreshParticle(Vector2(-25.0, -25.0))
    else if k <= 1600 then FreshParticle(GridPosition(k - 1))
    else SceneBoundary
  }

  // ---------------------------------------------------------------------------
  // The world, updated in place

  class World {
    const entities: array<Entity>

    ghost predicate Valid()
      reads this
    {
      entities.Length == MaxEntityCount
    }

    /** The world allocated and cleared to zero: every slot free. */
    constructor ()
      ensures Valid() && fresh(entities)
      ensures forall k | 0 <= k < entities.Length :: entities[k] == ZeroEntity
    {
      entities := new Entity[MaxEntityCount](_ => ZeroEntity);
    }

    /**
     * entity_create: scans for the lowest free slot and marks it in use. When
     * every slot is in use (the source's assertion fails) the result is None
     * and nothing changes.
     */
    method Create() returns (slot: Option<nat>)
      requires Valid()
      modifies entities
      ensures slot == FirstFree(old(entities[..]))
      ensures slot.None? <==> old(ValidCount(entities[..])) == MaxEntityCount
      ensures slot.Some? ==> (slot.value < MaxEntityCount
        && entities[..] == old(entities[..])[slot.value := old(entities[slot.value]).(isValid := true)])
      ensures slot.None? ==> entities[..] == old(entities[..])
      ensures ValidCount(entities[..]) == old(ValidCount(entities[..])) + (if slot.Some? then 1 else 0)
    {
      CreateFailsIffFull(entities[..]);
      var i := 0;
      while i < entities.Length
        invariant 0 <= i <= entities.Length
        invariant forall j | 0 <= j < i :: entities[j].isValid
      {
        if !entities[i].isValid {
          FirstFreeIsLowest(entities[..], i);
          ValidCountUpdate(entities[..], i, entities[i].(isValid := true));
          entities[i] := entities[i].(isValid := true);
          return Some(i);
        }
        i := i + 1;
      }
      return None;
    }

    /** entity_destroy: clears one slot to the all-zero record. */
    method Destroy(slot: nat)
      requires Valid() && slot < MaxEntityCount
      modifies entities
      ensures entities[..] == old(entities[..])[slot := ZeroEntity]
      ensures ValidCount(entities[..])
           == old(ValidCount(entities[..])) - (if old(entities[slot].isValid) then 1 else 0)
    {
      ValidCountUpdate(entities[..], slot, ZeroEntity);
      entities[slot] := ZeroEntity;
    }

    /**
     * setup_particle: stamps the particle archetype, the particle mass, the
     * spawn position (-25, -25) and zero velocity, density, pressure and
     * pressure force. The flag and the other fields are kept, so allocation
     * is unaffected.
     */
    method SetupParticle(slot: nat)
      requires Valid() && slot < MaxEntityCount
      modifies entities
      ensures entities[..] == old(entities[..])[slot := old(entities[slot]).(
        arch := ArchParticle, mass := ParticleMass, position := Vector2(-25.0, -25.0),
        velocity := Zero2, density := 0.0, pressure := 0.0, pressureForce := Zero2)]
      ensures FirstFree(entities[..]) == old(FirstFree(entities[..]))
      ensures ValidCount(entities[..]) == old(ValidCount(entities[..]))
    {
      entities[slot] := entities[slot].(
        arch := ArchParticle, mass := ParticleMass, position := Vector2(-25.0, -25.0),
        velocity := Zero2, density := 0.0, pressure := 0.0, pressureForce := Zero2);
      SameFlagsSameAllocation(entities[..], old(entities[..]));
    }

    /** setup_boundary: stamps the boundary archetype and keeps everything else. */
    method SetupBoundary(slot: nat)
      requires Valid() && slot < MaxEntityCount
      modifies entities
      ensures entities[..] == old(entities[..])[slot := old(entities[slot]).(arch := ArchBoundary)]
      ensures FirstFree(entities[..]) == old(FirstFree(entities[..]))
      ensures ValidCount(entities[..]) == old(ValidCount(entities[..]))
    {
      entities[slot] := entities[slot].(arch := ArchBoundary);
      SameFlagsSameAllocation(entities[..], old(entities[..]));
    }

    /**
     * The initial scene that `entry` builds in the cleared world: one
     * particle at the spawn point, then a 40 x 40 grid of particles, then the
     * boundary entity outlining the walls. Every creation succeeds, since
     * these 1602 entities fit in the table, and they take the slots 0 to 1601
     * in creation order.
     */
    method SpawnScene()
      requires Valid()
      requires forall k | 0 <= k < entities.Length :: entities[k] == ZeroEntity
      modifies entities
      ensures forall k | 0 <= k < entities.Length :: entities[k] == SceneSlot(k, 1602)
      ensures ValidCount(entities[..]) == 1602
    {
      ZeroCount(entities[..]);
      assert SceneUpTo(entities[..], 0);
      ghost var before := entities[..];
      SceneNextFree(entities[..], 0);
      var particle := Create();
      SetupParticle(particle.value);
      assert entities[..] == before[0 := SceneSlot(0, 1)];
      SceneStep(before, 0);

      SpawnParticleGrid();

      before := entities[..];
      SceneNextFree(entities[..], 1601);
      var boundary := Create();
      var slot := boundary.value;
      SetupBoundary(slot);
      entities[slot] := entities[slot].(
        boundaryPoint0 := Vector2(-50.0, -50.0), boundaryPoint1 := Vector2(50.0, -50.0),
        boundaryPoint2 := Vector2(50.0, 50.0), boundaryPoint3 := Vector2(-50.0, 50.0));
      assert entities[..] == before[1601 := SceneSlot(1601, 1602)];
      SceneStep(before, 1601);
    }

    /**
     * The grid of the initial scene: for each row i and column j below 40, a
     * particle created, set up, and moved to (1.5 i - 30, 1.5 j - 30). The
     * grid takes the slots 1 to 1600, row by row.
     */
    method SpawnParticleGrid()
      requires Valid() && SceneUpTo(entities[..], 1)
      modifies entities
      ensures SceneUpTo(entities[..], 1601)
    {
      ghost var n: nat := 1;
      for i := 0 to 40
        invariant n == 1 + 40 * i
        invariant SceneUpTo(entities[..], n)
      {
        for j := 0 to 40
          invariant n == 1 + 40 * i + j
          invariant SceneUpTo(entities[..], n)
        {
          ghost var before := entities[..];
          SceneNextFree(entities[..], n);
          var created := Create();
          var slot := created.value;
          SetupParticle(slot);
          entities[slot] := entities[slot].(position := Vector2(1.5 * (i as real) - 30.0, 1.5 * (j as real) - 30.0));
          GridPositionAt(i, j);
          assert entities[..] == before[n := SceneSlot(n, n + 1)];
          SceneStep(before, n);
          n := n + 1;
        }
      }
    }

    /**
     * The wall-collision step of the tick loop on one particle's position and
     * velocity, in place; every other field and every other slot is kept.
     */
    method ResolveWallCollision(slot: nat)
      requires Valid() && slot < MaxEntityCount
      modifies entities
      ensures var e := old(entities[slot]);
        var m := Collision.WallCollision(Collision.Motion(e.position, e.velocity));
        entities[..] == old(entities[..])[slot := e.(position := m.position, velocity := m.velocity)]
      ensures FirstFree(entities[..]) == old(FirstFree(entities[..]))
    {
      var e := entities[slot];
      var m := Collision.WallCollision(Collision.Motion(e.position, e.velocity));
      entities[slot] := e.(position := m.position, velocity := m.velocity);
      SameFlagsSameAllocation(entities[..], old(entities[..]));
    }
  }
}
