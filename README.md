# FluidSim core in Dafny

A model of the verifiable core of `fluid_sim.c`, a 2D smoothed-particle
hydrodynamics toy. Every float of the program is a `real` here.

- **Entity slot arena** (`entities.dfy`, module `Entities`). The world is a
  class holding a fixed array of `MAX_ENTITY_COUNT` (4096) entity records.
  Each record has an `is_valid` tombstone flag.
  - `Create` takes the lowest free slot and marks it in use. When every slot
    is in use, the program's assertion fails; the model returns `None`
    instead and leaves the table unchanged.
  - `Destroy` clears a slot to the all-zero record.
  - `SetupParticle` and `SetupBoundary` stamp the archetype and the initial
    fields.
  - `SpawnScene` and `SpawnParticleGrid` build the scene that `entry`
    creates: one particle, a 40 x 40 grid and the boundary.
  - `ResolveWallCollision` applies the wall rule in place to one slot.
  - Two functions on the table's value specify the methods. `FirstFree`
    gives the first-fit slot and `ValidCount` the number of slots in use.
- **Kernels and equation of state** (`kernels.dfy`, module `Kernels`). These
  are the smoothing kernel `(R - d)^2 / volume`, its derivative
  `(d - R) * scale`, the linear density-to-pressure law and the shared
  (mean) pressure. The radius is 2.0, the rest density 2.75 and the
  stiffness 10. `powf(2.0, 4)` is the exact 16. `PI32` is defined in the
  engine's base header, which is not part of this model. It is an
  unspecified positive constant here, so every kernel property holds for any
  positive value of it.
- **Wall collision** (`collision.dfy`, module `Collision`). This is the
  `if / else if` chain that runs after each particle is integrated. It
  checks the floor, the ceiling, the left wall and the right wall of
  [-50, 50] x [-50, 50] in that order, and handles at most one wall per
  step. It is modelled exactly as written, including the side-wall branches
  that compute the new horizontal velocity from the vertical one (see
  Findings).
- `vectors.dfy` (module `Vectors`) holds the 2D vector value and `Abs`.

Notes on the code, which the model follows:
- `fluid_sim.c` has no spatial hash grid. Its neighbour search is a
  brute-force scan over all slots.
- The kernel radius is a fixed 2.0, not a parameter.
- The collision chain handles one wall per step, not both axes
  independently.
- The side-wall branches reflect using the vertical velocity.
- On a full table, `entity_create` stops the program at an assertion
  (fluid_sim.c:51). Here the model departs from the code: `Create` returns
  `None` and leaves the table unchanged (see Left out).

## Model

| member | source | states |
|---|---|---|
| `Entities.FirstFree` | fluid_sim.c:42-51 | the chosen slot is free and every slot before it is in use; there is no slot exactly when every slot is in use |
| `Entities.FirstFreeIsLowest` | fluid_sim.c:44-49 | a free slot with every earlier slot in use is the one the scan picks |
| `Entities.ValidCount` | fluid_sim.c:35-39 | the number of slots in use never exceeds the table size |
| `Entities.ValidCountUpdate` | fluid_sim.c:51-58 | writing one slot changes the in-use count by exactly the change of that slot's flag |
| `Entities.FullIffAllValid` | fluid_sim.c:44-51 | the in-use count equals the table size exactly when every flag is set |
| `Entities.CreateFailsIffFull` | fluid_sim.c:44-51 | creation fails exactly when all slots are in use |
| `Entities.SameFlagsSameAllocation` | fluid_sim.c:60-72 | allocation and the count depend only on the flags, so stamping fields does not change them |
| `Entities.DestroyedSlotIsReused` | fluid_sim.c:42-58 | after a slot is cleared, and every slot before it is in use, the next creation returns that slot |
| `Entities.ZeroCount` | fluid_sim.c:108-109 | a table cleared to zero has no slot in use |
| `Entities.World.constructor` | fluid_sim.c:108-109 | the fresh world has every slot cleared to the zero record |
| `Entities.World.Create` | fluid_sim.c:42-54 | returns the first-fit slot of the old table and sets only its flag; the count grows by one; on a full table it returns None and changes nothing |
| `Entities.World.Destroy` | fluid_sim.c:56-58 | the slot becomes the all-zero record and no other slot changes; the count drops by one if the slot was in use |
| `Entities.World.SetupParticle` | fluid_sim.c:60-68 | stamps particle archetype, mass 1, position (-25, -25), and zero velocity, density, pressure and pressure force; keeps the flag, every other field and slot; allocation unchanged |
| `Entities.World.SetupBoundary` | fluid_sim.c:70-72 | stamps the boundary archetype only; allocation unchanged |
| `Entities.World.SpawnScene` | fluid_sim.c:108-127 | building the initial scene never hits the full-table assertion; slot 0 is the spawn particle, slots 1-1600 the grid, slot 1601 the boundary, the rest free; 1602 in use |
| `Entities.World.SpawnParticleGrid` | fluid_sim.c:114-120 | the 40 x 40 grid fills slots 1 to 1600 row by row with particles at (1.5 i - 30, 1.5 j - 30) |
| `Entities.World.ResolveWallCollision` | fluid_sim.c:163-182 | the slot's position and velocity become the result of the wall rule; every other field and slot is kept; allocation unchanged |
| `Kernels.Volume` | fluid_sim.c:79 | the normalising volume is positive |
| `Kernels.DerivativeScale` | fluid_sim.c:86 | the derivative scale is positive and is exactly 2 / volume |
| `Kernels.SmoothingKernel` | fluid_sim.c:76-81 | the kernel is never negative and is zero exactly from the radius on |
| `Kernels.KernelStrictlyDecreasing` | fluid_sim.c:76-81 | the kernel strictly decreases with distance up to the radius |
| `Kernels.KernelPeakAtZero` | fluid_sim.c:79-80 | the maximum over non-negative distances is at 0 and equals 4 / volume = 3 / (2 PI32) |
| `Kernels.KernelVanishesAtRadius` | fluid_sim.c:76-81 | for every tolerance a band below the radius keeps the kernel under it: the kernel is continuous at the cutoff |
| `Kernels.SmoothingKernelDerivative` | fluid_sim.c:83-88 | the derivative kernel is never positive and is zero exactly from the radius on |
| `Kernels.DerivativeNonDecreasing` | fluid_sim.c:83-88 | the derivative kernel is non-decreasing in the distance |
| `Kernels.DerivativeStrictlyIncreasing` | fluid_sim.c:83-88 | below the radius the derivative kernel strictly increases with distance, so its magnitude strictly grows as the distance falls |
| `Kernels.DerivativeMostNegativeAtZero` | fluid_sim.c:86-87 | the derivative kernel is most negative at distance 0, with value -3 / (2 PI32) |
| `Kernels.DerivativeMatchesKernel` | fluid_sim.c:76-88 | the derivative kernel is the true derivative of the kernel: the kernel's change over any interval up to the radius is the trapezoid of the derivative |
| `Kernels.ConvertDensityToPressure` | fluid_sim.c:90-94 | pressure is zero exactly at rest density 2.75, negative exactly below it, positive exactly above it |
| `Kernels.PressureStrictlyIncreasing` | fluid_sim.c:90-94 | pressure strictly increases with density |
| `Kernels.CalculateSharedPressure` | fluid_sim.c:96-98 | the shared pressure lies between the two pressures and equals them when they agree |
| `Kernels.SharedPressureSymmetric` | fluid_sim.c:96-98 | the shared pressure does not depend on the order of the pair |
| `Collision.WallCollision` | fluid_sim.c:164-182 | at most one axis (position and velocity) changes; the position is kept exactly when the particle is strictly inside the walls, and then nothing changes |
| `Collision.FloorAndCeilingBounce` | fluid_sim.c:164-172 | beyond the floor or ceiling: y goes to -49.9 or 49.9, vy becomes -(vy * 0.75) with no larger magnitude, x and vx are kept even at a corner |
| `Collision.SideWallBounceAsWritten` | fluid_sim.c:173-182 | with y inside and x beyond a side wall: x goes to -49.9 or 49.9, vx becomes -(vy * 0.75), y and vy are kept |
| `Collision.OneWallEndsInside` | fluid_sim.c:164-182 | a particle beyond at most one wall is strictly inside after one step |
| `Collision.CornerHandlesOneWall` | fluid_sim.c:164-182 | for every particle beyond a corner, only y is put back: x is kept and the result is still outside the walls |
| `Collision.SideWallIgnoresHorizontalVelocity` | fluid_sim.c:173-182 | the side-wall result velocity does not depend on the old horizontal velocity |
| `Collision.SideWallGainsSpeed` | fluid_sim.c:178-181 | at (50, 0) with velocity (1, 4) the particle leaves with vx = -3, faster than it came; the intended rule gives -0.75 |
| `Collision.WallCollisionIntended` | fluid_sim.c:173-182 | the corrected chain moves the particle exactly as the written one |
| `Collision.IntendedReflectsAndDamps` | fluid_sim.c:164-182 | with the correction, the velocity component of the axis hit is reversed and damped by 0.75, and the other component is kept |

## Findings

| source | as written | input that shows it | evidently intended | confidence | as-written member | corrected member |
|---|---|---|---|---|---|---|
| fluid_sim.c:176 and fluid_sim.c:181 | on a side-wall hit, `velocity.x = -(velocity.y * BOUNCE_DAMPING)` | position (50, 0), velocity (1, 4): the new velocity.x is -3, so the bounce speeds the particle up | `velocity.x = -(velocity.x * BOUNCE_DAMPING)`, giving -0.75 | high; not executed | `Collision.SideWallGainsSpeed` | `Collision.IntendedReflectsAndDamps` |

The world method `Entities.World.ResolveWallCollision` applies the rule as
written, because the model follows the program. The corrected rule
`Collision.WallCollisionIntended` exists beside it, with its reflection
property proved.

## Left out

- The density and force passes (fluid_sim.c:192-256) are left out. They
  need `v2_length`, a square root that is not expressible over reals
  without axioms. They divide by a distance that is zero for coincident
  particles (line 241). They also read neighbours' densities from a mix of
  this tick and the previous one, because update, render and recompute are
  interleaved in one pass.
- The acceleration division `pressure_force / density` at line 256 is left
  out with the passes. It is unguarded against a zero density.
- The integrator lines (fluid_sim.c:159-161) are plain Euler updates and
  are left out. Gravity is commented out at line 156, and `GRAVITY` is
  otherwise unused.
- The window, input, frame clock, drawing and logging in `entry`
  (fluid_sim.c:100-107, 129-146, 185-190, 260-297) are I/O and rendering.
  Only the world allocation and the scene creation of `entry` are modelled.
- IEEE-754 behaviour is not modelled: rounding, NaN and infinity from
  `v2_divf`, and `powf`. Every scalar is a real.
- `PI32` has no value in the model. It comes from the engine header, which
  is not part of this model.
- The engine's `alloc` of the world is not modelled. The constructor
  models the allocation together with its `memset`.
- Entity pointers are modelled as slot indices. The program never
  dereferences one entity through two pointers in the modelled code.
- `Entities.World.Create`: the assertion at fluid_sim.c:51 aborts the
  program on a full table. The model does not abort. It returns `None` and
  leaves the table unchanged.
- `Entities.World.ResolveWallCollision` does not require the slot to hold a
  valid particle. The tick loop only calls the rule on valid particles, and
  the rule itself does not depend on that.
