# Player health and gun state machines, in Dafny

This project models the two self-contained pieces of game logic in a Unity
first-person-shooter prototype. Both are components whose fields are updated in
place, so each is modelled as a Dafny `class` with the source's fields and
methods.

- **PlayerHealth** (`player_health.dfy`, module `Health`) is the health and armour
  ledger. A hit is taken by armour first, and only the part armour cannot take
  comes off health. Neither pool goes below zero. Healing is capped at
  `maxHealth`. An armour pickup adds 25, capped at `maxArmor`. Death latches and
  then blocks every further change.
- **GunController** (`gun_controller.dfy`, module `Gun`) is the ammunition,
  fire-rate and reload state machine. A trigger pull does nothing while the gun
  is reloading or within `fireRate` of the last shot. On an empty magazine it
  starts a reload instead of firing. Otherwise it spends one round, records the
  time, and raises `IsShooting`. The shot that empties the magazine starts a
  reload. A running reload cannot be restarted, and its end refills the magazine.
- `mathf.dfy` (module `Mathf`) holds the integer `Mathf.Max` and `Mathf.Min` the
  scripts call.

Each transition is defined once, as a function on a value snapshot (`Vitals`,
`GunState`). Each class method is proved to perform exactly that transition on
its fields (`ensures State() == AfterDamage(old(State()), damageAmount)`), and to
keep the class invariant `Valid()`. The transition functions state what the
source promises in their `ensures`. Events the engine delivers in any order are
modelled as sequences (`Health.Event`, `Gun.Event`). The lemmas then prove the
promises over every such sequence by induction: death is permanent, the
invariants always hold, every round is accounted for, and the fire rate is never
beaten.

Modelling decisions:

- The engine clock `Time.time` becomes the parameter `now: real` of `OnShoot`.
- The two coroutine tails become event methods. `FinishReload` is the end of
  `ResetReloadFlag` and `ResetShoot` is the end of `ResetShootFlag`. They may be
  called at any time. This over-approximates the engine, which runs them only
  after their timers.
- Unity creates the component, then calls `Start`. The constructor gives the
  fields C#'s defaults (0, `false`, `0.0`), and `Start` is a separate method.
  `Valid()` holds from `Start` on.
- `maxHealth`, `maxArmor`, `magSize` and `fireRate` are designer-set numbers
  that no modelled operation changes, so they are `const` fields. They may be
  set to any value, including a negative one, so the invariants (`Bounded`,
  `Consistent`, `Ready`) hold for every configuration. The lemmas
  `ConsistentRanges` and `ReadyRange` give the plain form `0 <= x <= max` when
  the maximum is not negative.

## Model

| member | source | states |
|---|---|---|
| `Mathf.Max` | Assets/Scripts/PlayerHealth.cs:23-30 | `Mathf.Max(int, int)`: the result is at least both arguments and is one of them |
| `Mathf.Min` | Assets/Scripts/PlayerHealth.cs:41-51 | `Mathf.Min(int, int)`: the result is at most both arguments and is one of them |
| `Health.Spawn` | Assets/Scripts/PlayerHealth.cs:11-15 | after Start the player is alive with both pools at their maxima, and the ledger invariant holds |
| `Health.PlayerHealth.constructor` | Assets/Scripts/PlayerHealth.cs:5-9 | the maxima are the inspector settings (default 100), the other fields hold C#'s defaults |
| `Health.PlayerHealth.Start` | Assets/Scripts/PlayerHealth.cs:11-15 | Start sets the fields to `Spawn` and establishes the invariant |
| `Health.ConsistentRanges` | Assets/Scripts/PlayerHealth.cs:5-6 | with non-negative maxima the invariant means `0 <= health <= maxHealth` and `0 <= armor <= maxArmor` |
| `Health.Killed` | Assets/Scripts/PlayerHealth.cs:57-62 | Die sets the dead flag and changes neither pool |
| `Health.PlayerHealth.Die` | Assets/Scripts/PlayerHealth.cs:57-62 | the method performs `Killed` on its fields |
| `Health.AfterDamage` | Assets/Scripts/PlayerHealth.cs:16-35 | a dead player or non-positive damage changes nothing; neither pool rises above its old value or 0, and neither falls below zero unless it was already there; health drops only once armour is gone; the player is dead exactly when health is exhausted; on non-negative pools the result meets `Absorbs` |
| `Health.AbsorbsExactly` | Assets/Scripts/PlayerHealth.cs:20-31 | for a living player with non-negative pools and positive damage, `AfterDamage` is the one outcome in which the pools lose exactly `min(damage, armor + health)`, armour first, and death coincides with zero health |
| `Health.DamageKeepsConsistent` | Assets/Scripts/PlayerHealth.cs:16-35 | a hit keeps the ledger invariant |
| `Health.PlayerHealth.TakeDamage` | Assets/Scripts/PlayerHealth.cs:16-35 | the method performs `AfterDamage` on its fields and keeps `Valid()` |
| `Health.Healed` | Assets/Scripts/PlayerHealth.cs:37-45 | healing never touches armour or the dead flag; it is a no-op when dead, for a non-positive amount, or at full health; otherwise health gains the amount or whatever room is left below `maxHealth`; the invariant is kept |
| `Health.PlayerHealth.Heal` | Assets/Scripts/PlayerHealth.cs:37-45 | the method performs `Healed` on its fields and keeps `Valid()` |
| `Health.AddInt32` | Assets/Scripts/PlayerHealth.cs:41 | C#'s unchecked int addition always gives a 32-bit value, and equals the exact sum when that sum fits |
| `Health.HealedAsWritten` | Assets/Scripts/PlayerHealth.cs:37-45 | Heal with the 32-bit sum agrees with `Healed` whenever `health + amount` fits in an int |
| `Health.HealOverflowCounterexample` | Assets/Scripts/PlayerHealth.cs:41 | healing a player at 50 of 100 by `int.MaxValue` leaves health negative as written, and full as intended |
| `Health.ArmorAdded` | Assets/Scripts/PlayerHealth.cs:47-55 | a pickup never touches health or the dead flag; it is a no-op when dead or at full armour; otherwise armour gains 25 or whatever room is left below `maxArmor`; the invariant is kept |
| `Health.PlayerHealth.AddArmor` | Assets/Scripts/PlayerHealth.cs:47-55 | the method performs `ArmorAdded` on its fields and keeps `Valid()` |
| `Health.Apply` | Assets/Scripts/PlayerHealth.cs:16-55 | any one call keeps the invariant and changes nothing for a dead player |
| `Health.DeathIsPermanent` | Assets/Scripts/PlayerHealth.cs:16-59 | after any sequence of TakeDamage, Heal and AddArmor calls, a dead player's ledger is unchanged |
| `Health.RunKeepsConsistent` | Assets/Scripts/PlayerHealth.cs:11-59 | the ledger invariant holds after any sequence of calls |
| `Health.OnlyHealingRaisesHealth` | Assets/Scripts/PlayerHealth.cs:16-55 | with no Heal among the calls, health stays between 0 and its starting value |
| `Health.OnlyPickupsRaiseArmor` | Assets/Scripts/PlayerHealth.cs:16-55 | with no AddArmor among the calls, armour stays between 0 and its starting value |
| `Gun.GunController.constructor` | Assets/Scripts/GunController.cs:8-32 | the magazine size (default 20) and fire rate (default 0.25) are the inspector settings, the other fields hold C#'s defaults |
| `Gun.Started` | Assets/Scripts/GunController.cs:35-44 | Start fills the magazine to `magSize`, leaves the other fields alone, and establishes the gun invariant |
| `Gun.GunController.Start` | Assets/Scripts/GunController.cs:35-44 | the method performs `Started` on its fields and establishes `Valid()` |
| `Gun.ReadyRange` | Assets/Scripts/GunController.cs:29-30 | with a non-negative magazine size the invariant means `0 <= currentAmmo <= magSize` |
| `Gun.Shot` | Assets/Scripts/GunController.cs:60-92 | a pull while reloading or inside the fire-rate window changes nothing; on an empty magazine it only starts a reload; a shot spends exactly one round, records `now`, raises the shooting flag, and leaves the gun reloading exactly when the magazine is then empty; ammo, fire time and flag change only on a shot; the invariant is kept |
| `Gun.GunController.OnShoot` | Assets/Scripts/GunController.cs:60-92 | the method performs `Shot` on its fields and keeps `Valid()` |
| `Gun.ShotsSpacedByFireRate` | Assets/Scripts/GunController.cs:63-70 | of two consecutive pulls that both fire, the second comes at least `fireRate` after the first |
| `Gun.Reloaded` | Assets/Scripts/GunController.cs:108-115 | after OnReload the gun is reloading and ammo, fire time and shooting flag are unchanged |
| `Gun.ReloadIdempotent` | Assets/Scripts/GunController.cs:110 | a second OnReload changes nothing |
| `Gun.GunController.OnReload` | Assets/Scripts/GunController.cs:108-115 | the method performs `Reloaded` on its fields |
| `Gun.Refilled` | Assets/Scripts/GunController.cs:117-123 | the end of a reload leaves a full magazine and a gun not reloading, changes nothing else, and establishes the invariant |
| `Gun.GunController.FinishReload` | Assets/Scripts/GunController.cs:117-123 | the method performs `Refilled` on its fields and establishes `Valid()` |
| `Gun.Settled` | Assets/Scripts/GunController.cs:95-106 | the end of the shooting animation lowers the shooting flag and changes nothing else |
| `Gun.GunController.ResetShoot` | Assets/Scripts/GunController.cs:95-106 | the method performs `Settled` on its fields |
| `Gun.Step` | Assets/Scripts/GunController.cs:60-123 | any one event keeps the invariant; ammo falls by one on a shot and otherwise changes only at the end of a reload; the fire time changes only on a shot, to its time |
| `Gun.RunKeepsReady` | Assets/Scripts/GunController.cs:35-123 | the gun invariant holds after any sequence of events |
| `Gun.RoundsAccounted` | Assets/Scripts/GunController.cs:64-71 | until a reload completes, rounds fired plus rounds left equal the rounds at the start |
| `Gun.MagazineLimit` | Assets/Scripts/GunController.cs:43-121 | between two reload completions at most `magSize` rounds are fired |
| `Gun.FireRateRespected` | Assets/Scripts/GunController.cs:63-70 | over any sequence of events, every round fired comes at least `fireRate` after the previous one, the first at least `fireRate` after the recorded fire time |
| `Gun.LastShotRemembered` | Assets/Scripts/GunController.cs:70 | after any sequence of events, `lastFireTime` is the time of the last round fired, or unchanged if none was |

## Left out

- FirstPersonController.cs, CoroutineRelay.cs, ForceWeaponFollow.cs, IKTargetFollower.cs, StarterAssetsInputs.cs, Universal Weapon System.cs, Parabolic Bullet.cs and Melee Controller.cs are not part of this model. They are per-frame floating-point motion, engine transforms and physics, and input wiring.
- GunController's `Update` (lines 46-58) is not modelled. It only lerps the arms' rotation towards the reload pose.
- GunController's animator calls, muzzle-flash and impact `Instantiate`/`Destroy`, `Camera.main` and `Physics.Raycast` are not modelled. When they complete, none of them affects the modelled fields.
- Gun.Shot: assumes every serialized reference (`gunAnimator`, `muzzleFlashPrefab`, `firePoint`, `bulletImpactPrefab`) is assigned and `Camera.main` exists. If one of the calls at lines 74-85 throws, Unity drops the rest of `OnShoot` after the round was spent at line 71. The auto-reload at lines 88-91 then never runs, and the gun can sit at 0 rounds while not reloading. That state breaks `Ready`. The empty-magazine branch at lines 64-68 recovers from it on the next pull outside the fire-rate window, as `Shot`'s second ensures states. The model does not capture the aborted shot.
- Gun.GunController.OnShoot: makes the same assumption as `Gun.Shot`, and does not model a throw at lines 74-85.
- The timers (`WaitForSeconds`) and the animator-tag polling loop in `ResetShootFlag` (lines 99-102) are not modelled. They decide only when the two coroutine tails run. The model lets `FinishReload` and `ResetShoot` arrive at any time.
- `StopCoroutine(nameof(ResetShootFlag))` at line 76 is not modelled. In Unity it may not stop an earlier shot's coroutine, so `IsShooting` can be cleared early. `ResetShoot` being allowed at any time covers this.
- `IsReloading` (line 33) is a read-only view of `isReloading`, which the model exposes directly.
- Floating-point rounding in `Time.time - lastFireTime < fireRate` is not modelled. Times are `real`.
- PlayerHealth's `Debug.Log` calls are logging only.
- Outside writes to the public fields `maxHealth` and `maxArmor` are not modelled. No modelled operation changes them.
- Health.AfterDamage: does not model 32-bit wrap-around. On pools that are not negative, its subtractions cannot overflow.
- Health.ArmorAdded: does not model 32-bit wrap-around. `currentArmor + 25` overflows only when `maxArmor` is within 25 of `int.MaxValue`.

## Findings

| source | as written | input that shows it | evidently intended | confidence | as-written member | corrected member |
|---|---|---|---|---|---|---|
| Assets/Scripts/PlayerHealth.cs:41 | `currentHealth + amount` is unchecked 32-bit C# arithmetic, so a large heal wraps round | `Heal(int.MaxValue)` on a player at 50 of 100 health sets health to -2147483599 | heal to `maxHealth`: health never falls when healed | medium, not executed | `Health.HealOverflowCounterexample` | `Health.Healed` |
