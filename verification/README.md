# Weapon inventory of the first-person controller

A Dafny model of the weapon inventory used by the first-person player. It has two parts:

- **`WeaponManager`** holds two parallel lists, the spawned weapon objects and their names. It also holds the index of the equipped weapon, which is -1 while the inventory is empty. It adds weapons whose name is new. It switches weapons by index, to the next one or to the previous one, with wrap-around. After every change it shows only the equipped weapon. Each frame it maps the Q, Tab and 1–3 keys to these operations.
- **`WeaponPickup`** is a weapon lying in the world. Each frame it recomputes whether the player is in range. When the player presses E while in range, it hands its prefab and name to the manager. It then deactivates itself, even when the manager rejected the name as a duplicate.

The model is purely functional:

- An inventory is an immutable `Inventory` value. Engine objects are opaque `nat` ids.
- The engine's active (visible) flag of each weapon object is a `seq<bool>` parallel to the weapon list.
- Every operation is a total function. A bad index, an empty inventory or a duplicate name gives back the unchanged inventory.
- Key presses, the distance to the player, the presence of the player, the manager and the keyboard, and the id of a freshly instantiated clone are all parameters.

Files:

- `wrappers.dfy`: `Option`, for engine references that may be null.
- `weapon_manager.dfy`: the inventory state, the state invariant `Valid`, and the operations.
- `weapon_manager_laws.dfy`: laws that relate several operations:
  - next and previous undo each other;
  - `count` steps forward or back return to the start;
  - any run of calls keeps `Valid` and only appends;
  - picking up distinct new names appends them in order.
- `weapon_pickup.dfy`: prefab defaulting in `Start`, the per-frame `Update`, and the engine's "only active objects update" rule.

C#'s `%` truncates toward zero, so it is modelled by `WeaponManager.CsRem`, with the matching quotient `WeaponManager.CsQuot`. In every valid state the dividend `currentWeaponIndex + 1` is non-negative, so the result matches the mathematical remainder.

Notes on what the code does:

- The code's `PickupWeapon` returns nothing. It does not report whether the weapon was accepted.
- The code does not reject an empty weapon name.
- `SwitchToPreviousWeapon` decrements the index and resets it to `count - 1` when it goes below zero. For a valid index this equals `(i - 1 + count) mod count`, as `WeaponManagerLaws.PreviousIsModular` shows.

## Model

| member | source | states |
|---|---|---|
| WeaponManager.Initial | Assets/StarterAssets/FirstPersonController/Scripts/WeaponManager.cs:25-41 | the freshly started manager owns nothing, has index -1, and satisfies the state invariant |
| WeaponManager.CsRem | Assets/StarterAssets/FirstPersonController/Scripts/WeaponManager.cs:155 | C#'s truncating remainder of a positive divisor n lies in [0, n) for a non-negative dividend and in (-n, 0] for a negative one; a dividend strictly between -n and n is its own remainder, and n itself gives 0 |
| WeaponManager.CsQuot | Assets/StarterAssets/FirstPersonController/Scripts/WeaponManager.cs:155 | the truncating quotient q of C#'s `/` splits the dividend exactly, a == q * n + CsRem(a, n), and it is never negative for a non-negative dividend and never positive for a negative one; with the bounds of CsRem this determines C#'s `%` uniquely |
| WeaponManager.UpdateWeaponVisibility | Assets/StarterAssets/FirstPersonController/Scripts/WeaponManager.cs:176-196 | the refresh keeps one flag per weapon and leaves weapon i shown exactly when i is the equipped index |
| WeaponManager.PickupWeapon | Assets/StarterAssets/FirstPersonController/Scripts/WeaponManager.cs:76-139 | a name already owned leaves the whole inventory unchanged; a new name appends exactly one name and one clone of the prefab after the existing entries; the index becomes 0 for the first weapon and stays put otherwise; only the equipped weapon is shown; the name is owned afterwards; the state invariant (including unique names) is preserved |
| WeaponManager.SwitchToWeapon | Assets/StarterAssets/FirstPersonController/Scripts/WeaponManager.cs:141-149 | an index below 0 or at or past the count is a no-op; otherwise that index becomes equipped and is the only one shown; the lists are never changed; the invariant is preserved |
| WeaponManager.SwitchToNextWeapon | Assets/StarterAssets/FirstPersonController/Scripts/WeaponManager.cs:151-159 | a no-op on an empty inventory; otherwise the index advances by one and wraps from the last weapon to the first; the lists are never changed; the invariant is preserved |
| WeaponManager.SwitchToPreviousWeapon | Assets/StarterAssets/FirstPersonController/Scripts/WeaponManager.cs:161-174 | a no-op on an empty inventory; otherwise the index goes back by one and wraps from the first weapon to the last; the lists are never changed; the invariant is preserved |
| WeaponManager.Update | Assets/StarterAssets/FirstPersonController/Scripts/WeaponManager.cs:44-74 | with no keyboard nothing changes; Q takes priority over Tab; the first digit key 1-3 whose slot exists selects slot 0, 1 or 2, and this selection overrides the Q/Tab switch of the same frame; with no effective digit the frame is exactly previous, next or nothing; the lists are never changed; the invariant is preserved |
| WeaponManagerLaws.ValidDetermined | Assets/StarterAssets/FirstPersonController/Scripts/WeaponManager.cs:176-196 | in a valid inventory the visibility flags are fixed by the index, so two valid inventories with the same objects, names and index are equal |
| WeaponManagerLaws.VisibleIsCurrent | Assets/StarterAssets/FirstPersonController/Scripts/WeaponManager.cs:176-196 | in a valid inventory the shown weapons are exactly {index}, or none when the inventory is empty (index -1); at most one weapon is shown |
| WeaponManagerLaws.NextIsModular | Assets/StarterAssets/FirstPersonController/Scripts/WeaponManager.cs:151-159 | going forward in a non-empty valid inventory gives index (i + 1) mod count |
| WeaponManagerLaws.PreviousIsModular | Assets/StarterAssets/FirstPersonController/Scripts/WeaponManager.cs:161-174 | going back in a non-empty valid inventory gives index (i - 1 + count) mod count |
| WeaponManagerLaws.PreviousUndoesNext | Assets/StarterAssets/FirstPersonController/Scripts/WeaponManager.cs:151-174 | previous after next restores a valid inventory exactly, visibility included |
| WeaponManagerLaws.NextUndoesPrevious | Assets/StarterAssets/FirstPersonController/Scripts/WeaponManager.cs:151-174 | next after previous restores a valid inventory exactly, visibility included |
| WeaponManagerLaws.NextN | Assets/StarterAssets/FirstPersonController/Scripts/WeaponManager.cs:151-159 | k <= count steps forward from a valid inventory keep the invariant and both lists, and advance the index by k with a single wrap |
| WeaponManagerLaws.PreviousN | Assets/StarterAssets/FirstPersonController/Scripts/WeaponManager.cs:161-174 | k <= count steps back from a valid inventory keep the invariant and both lists, and move the index back by k with a single wrap |
| WeaponManagerLaws.NextCycle | Assets/StarterAssets/FirstPersonController/Scripts/WeaponManager.cs:151-159 | count steps forward return a valid inventory to exactly where it started |
| WeaponManagerLaws.PreviousCycle | Assets/StarterAssets/FirstPersonController/Scripts/WeaponManager.cs:161-174 | count steps back return a valid inventory to exactly where it started |
| WeaponManagerLaws.ApplyStep | Assets/StarterAssets/FirstPersonController/Scripts/WeaponManager.cs:44-174 | any single call (pickup, selection, next, previous or key frame) keeps the state invariant, and the earlier names and objects stay a prefix |
| WeaponManagerLaws.RunPreservesValid | Assets/StarterAssets/FirstPersonController/Scripts/WeaponManager.cs:25-27 | any sequence of pickups, selections, next, previous and key frames keeps the state invariant; the earlier names and objects stay a prefix, so nothing is removed or reordered and a non-empty inventory never becomes empty |
| WeaponManagerLaws.FreshRequestsPrefix | Assets/StarterAssets/FirstPersonController/Scripts/WeaponManager.cs:81-85 | when a run of pickups asks for distinct new names, the last one is still new after the others have been picked up |
| WeaponManagerLaws.PickupAllAppends | Assets/StarterAssets/FirstPersonController/Scripts/WeaponManager.cs:125-134 | N pickups with distinct new names append exactly those names in order and grow the count by N; the first pickup into an empty inventory equips index 0 and later pickups leave the index alone; the invariant is preserved |
| WeaponManagerLaws.PistolRifleScenario | Assets/StarterAssets/FirstPersonController/Scripts/WeaponManager.cs:76-159 | picking up Pistol then Rifle gives names [Pistol, Rifle] with index 0; next equips and shows only Rifle; next wraps to 0; selecting slot 5 is ignored; a second Pistol is ignored |
| WeaponPickup.Start | Assets/StarterAssets/FirstPersonController/Scripts/WeaponPickup.cs:52-56 | an unset prefab defaults to the pickup's own object and a set one is kept; the pickup starts active and out of range |
| WeaponPickup.PickupWeapon | Assets/StarterAssets/FirstPersonController/Scripts/WeaponPickup.cs:84-95 | with no manager nothing changes; otherwise the prefab and name go to the manager's pickup, the pickup is deactivated unconditionally, and the manager owns the name afterwards |
| WeaponPickup.Update | Assets/StarterAssets/FirstPersonController/Scripts/WeaponPickup.cs:59-82 | with no player or no manager nothing changes; otherwise the in-range flag becomes distance <= pickupDistance; an active pickup deactivates exactly when player and manager are present, a keyboard exists, it is in range and E was pressed; then the manager receives the weapon and owns its name; otherwise the manager is untouched |
| WeaponPickup.Tick | Assets/StarterAssets/FirstPersonController/Scripts/WeaponPickup.cs:59-91 | an inactive pickup is never updated; an active one runs Update; the manager's state invariant is preserved |
| WeaponPickup.StartForwardsPrefab | Assets/StarterAssets/FirstPersonController/Scripts/WeaponPickup.cs:84-91 | for every configuration, a started pickup that fires hands the manager the prefab Start settled on (its own object when none was set): a new name is appended with a clone of that prefab, the pickup is consumed, and a valid inventory stays valid |
| WeaponPickup.InRangeMemoryless | Assets/StarterAssets/FirstPersonController/Scripts/WeaponPickup.cs:64-66 | when the player and the manager are present, the previous frame's in-range flag never affects the outcome of a frame |
| WeaponPickup.FiresAtMostOnce | Assets/StarterAssets/FirstPersonController/Scripts/WeaponPickup.cs:88-91 | after a pickup has fired, every later frame leaves it and the manager untouched |
| WeaponPickup.DuplicateStillConsumed | Assets/StarterAssets/FirstPersonController/Scripts/WeaponPickup.cs:86-91 | firing a pickup whose name the manager already owns leaves the inventory unchanged but still deactivates the pickup |
| WeaponPickup.DefaultPickupScenario | Assets/StarterAssets/FirstPersonController/Scripts/WeaponPickup.cs:12-19 | a default pickup with no prefab uses itself as the prefab; a player 2 units away pressing E gives an empty manager the weapon "Weapon", equipped at index 0, and consumes the pickup |

## Left out

- `WeaponPositionAdjuster.cs` is not part of this model. It is a debug tool that nudges transforms by floating-point amounts per frame.
- Engine work inside the manager's `PickupWeapon` is not modelled: `Instantiate`, setting the local position, rotation and scale, and destroying the Rigidbody, Collider and pickup components. A new clone is a caller-supplied id together with its initial active flag. The refresh overwrites that flag.
- All `Debug.Log` output, `OnGUI` labels and `OnDrawGizmos` drawing are presentation only and are not modelled.
- The tag search for the player and `GetComponentInChildren` for the manager become parameters: a "player present" flag and an optional manager.
- `Vector3.Distance` is a parameter. Single-precision floats are modelled as exact `real`s, so rounding at the range boundary is not modelled.
- The Input System's `wasPressedThisFrame` edge detection and the `ENABLE_INPUT_SYSTEM` guard are not modelled. Each key is one boolean per frame, and a missing keyboard is `None` for the manager and a `false` flag for the pickup.
- The null check on `weapons[i]` in the visibility refresh is not modelled. It only matters for weapon objects the engine has destroyed, and nothing in this code destroys one.
- `WeaponManager.SwitchToNextWeapon` and `WeaponManager.SwitchToPreviousWeapon` state the exact resulting index only for valid inventories. For an invalid one they state only the no-op on an empty inventory and that the lists are kept.
- The manager's `weaponContainer` defaulting in `Start` is not modelled. It only chooses the parent transform for clones.
