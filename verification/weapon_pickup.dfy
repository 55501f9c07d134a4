/**
 * A weapon lying in the world. Each frame it checks whether the player is in
 * range and pressed E; if so it hands its name and prefab to the player's
 * weapon manager and deactivates itself for good, whether or not the manager
 * accepted the weapon.
 */
module WeaponPickup {
  import opened Wrappers
  import WM = WeaponManager

  /** The inspector settings of a pickup; the prefab may be left unset. */
  datatype Config = Config(weaponName: string, weaponPrefab: Option<WM.ObjectId>, pickupDistance: real)

  /** The inspector defaults: named "Weapon", no prefab, a range of 3 units. */
  const DefaultConfig: Config := Config("Weapon", None, 3.0)

  /**
   * A started pickup: `self` is its own game object, `playerInRange` the flag
   * kept from the previous frame and `active` the game object's active flag.
   */
  datatype Pickup = Pickup(self: WM.ObjectId, weaponName: string, weaponPrefab: WM.ObjectId,
                           pickupDistance: real, playerInRange: bool, active: bool)

  /**
   * What the engine supplies for one frame: the distance between the pickup
   * and the player, whether a keyboard is connected, and whether E went down.
   */
  datatype Frame = Frame(distance: real, keyboard: bool, ePressed: bool)

  /** The id and initial active flag the engine gives the manager's clone of the prefab. */
  datatype Spawn = Spawn(id: WM.ObjectId, active: bool)

  /** The pickup together with the player's weapon manager, if one was found. */
  datatype World = World(pickup: Pickup, manager: Option<WM.Inventory>)

  /** `Start`: an unset prefab defaults to the pickup's own game object. */
  function Start(config: Config, self: WM.ObjectId): (p: Pickup)
    ensures config.weaponPrefab.None? ==> p.weaponPrefab == self
    ensures config.weaponPrefab.Some? ==> p.weaponPrefab == config.weaponPrefab.value
    ensures p.self == self && p.weaponName == config.weaponName && p.pickupDistance == config.pickupDistance
    ensures p.active && !p.playerInRange
  {
    var prefab := if config.weaponPrefab == None then self else config.weaponPrefab.value;
    Pickup(self, config.weaponName, prefab, config.pickupDistance, false, true)
  }

  /** The frame condition under which the pickup fires. */
  predicate Fires(p: Pickup, playerPresent: bool, managerPresent: bool, frame: Frame)
  {
    playerPresent && managerPresent && frame.keyboard && frame.distance <= p.pickupDistance && frame.ePressed
  }

  /**
   * Hands the weapon to the manager and deactivates the pickup. Without a
   * manager nothing happens.
   */
  function PickupWeapon(p: Pickup, manager: Option<WM.Inventory>, spawn: Spawn): (r: World)
    ensures manager.None? ==> r == World(p, manager)
    ensures manager.Some? ==>
      && r.pickup == p.(active := false)
      && r.manager.Some?
      && r.manager.value == WM.PickupWeapon(manager.value, p.weaponPrefab, p.weaponName, spawn.id, spawn.active)
      && p.weaponName in r.manager.value.names
  {
    match manager
    case None => World(p, manager)
    case Some(inv) =>
      var received := WM.PickupWeapon(inv, p.weaponPrefab, p.weaponName, spawn.id, spawn.active);
      World(p.(active := false), Some(received))
  }

  /**
   * The per-frame `Update`: nothing without a player and a manager;
   * otherwise the in-range flag is recomputed from the distance and the
   * pickup fires on E while in range.
   */
  function Update(p: Pickup, playerPresent: bool, manager: Option<WM.Inventory>,
                  frame: Frame, spawn: Spawn): (r: World)
    ensures !playerPresent || manager.None? ==> r == World(p, manager)
    ensures playerPresent && manager.Some? ==>
      r.pickup.playerInRange == (frame.distance <= p.pickupDistance)
    ensures p.active ==>
      (!r.pickup.active <==> Fires(p, playerPresent, manager.Some?, frame))
    ensures Fires(p, playerPresent, manager.Some?, frame) ==>
      && r.manager.Some?
      && r.manager.value == WM.PickupWeapon(manager.value, p.weaponPrefab, p.weaponName, spawn.id, spawn.active)
      && p.weaponName in r.manager.value.names
    ensures !Fires(p, playerPresent, manager.Some?, frame) ==>
      r.manager == manager && r.pickup.active == p.active
    ensures r.pickup.self == p.self && r.pickup.weaponName == p.weaponName
    ensures r.pickup.weaponPrefab == p.weaponPrefab && r.pickup.pickupDistance == p.pickupDistance
  {
    if !playerPresent || manager == None then World(p, manager)
    else
      var inRange := frame.distance <= p.pickupDistance;
      var p' := p.(playerInRange := inRange);
      if Fires(p, playerPresent, true, frame) then PickupWeapon(p', manager, spawn)
      else World(p', manager)
  }

  /** The engine runs `Update` only on an active game object. */
  function Tick(p: Pickup, playerPresent: bool, manager: Option<WM.Inventory>,
                frame: Frame, spawn: Spawn): (r: World)
    ensures !p.active ==> r == World(p, manager)
    ensures p.active ==> r == Update(p, playerPresent, manager, frame, spawn)
    ensures manager.Some? && WM.Valid(manager.value) ==> r.manager.Some? && WM.Valid(r.manager.value)
  {
    if p.active then Update(p, playerPresent, manager, frame, spawn) else World(p, manager)
  }

  /**
   * For every configuration, a started pickup that fires hands the manager
   * the prefab `Start` settled on: its own object when none was set. A new
   * name is appended with a clone of that prefab and the pickup is consumed.
   */
  lemma StartForwardsPrefab(config: Config, self: WM.ObjectId, inv: WM.Inventory,
                            frame: Frame, spawn: Spawn)
    requires config.weaponName !in inv.names
    requires frame.keyboard && frame.ePressed && frame.distance <= config.pickupDistance
    ensures
      var w := Tick(Start(config, self), true, Some(inv), frame, spawn);
      var prefab := if config.weaponPrefab.None? then self else config.weaponPrefab.value;
      && !w.pickup.active
      && w.manager.Some?
      && w.manager.value.names == inv.names + [config.weaponName]
      && w.manager.value.weapons == inv.weapons + [WM.Instance(spawn.id, prefab)]
      && (WM.Valid(inv) ==> WM.Valid(w.manager.value))
  {
  }

  /** The in-range flag carries no memory: the previous frame's value never changes the outcome. */
  lemma InRangeMemoryless(p: Pickup, b: bool, playerPresent: bool, manager: Option<WM.Inventory>,
                          frame: Frame, spawn: Spawn)
    requires playerPresent && manager.Some?
    ensures Update(p.(playerInRange := b), playerPresent, manager, frame, spawn)
         == Update(p, playerPresent, manager, frame, spawn)
  {
  }

  /** Once it has fired, a pickup never fires again and never touches the manager. */
  lemma FiresAtMostOnce(p: Pickup, playerPresent: bool, manager: Option<WM.Inventory>,
                        frame: Frame, spawn: Spawn,
                        playerPresent': bool, manager': Option<WM.Inventory>,
                        frame': Frame, spawn': Spawn)
    requires p.active && Fires(p, playerPresent, manager.Some?, frame)
    ensures
      var after := Tick(p, playerPresent, manager, frame, spawn).pickup;
      Tick(after, playerPresent', manager', frame', spawn') == World(after, manager')
  {
  }

  /**
   * A pickup of an already owned weapon is still consumed: the pickup is
   * deactivated while the manager's inventory stays exactly as it was.
   */
  lemma DuplicateStillConsumed(p: Pickup, inv: WM.Inventory, frame: Frame, spawn: Spawn)
    requires p.active && p.weaponName in inv.names
    requires Fires(p, true, true, frame)
    ensures Tick(p, true, Some(inv), frame, spawn) == World(p.(playerInRange := true, active := false), Some(inv))
  {
  }

  /** The scene after Start with the defaults, a player standing 2 units away pressing E. */
  lemma DefaultPickupScenario()
    ensures
      var p := Start(DefaultConfig, 7);
      var w := Tick(p, true, Some(WM.Initial()), Frame(2.0, true, true), Spawn(8, true));
      && p.weaponPrefab == 7
      && !w.pickup.active
      && w.manager.Some?
      && w.manager.value.names == ["Weapon"]
      && w.manager.value.current == 0
  {
  }
}
