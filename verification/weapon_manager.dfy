/**
 * The weapon inventory of the first-person player: two parallel lists (the
 * spawned weapon objects and their names) and the index of the equipped
 * weapon, -1 while the inventory is empty. Every operation is total: a bad
 * index, an empty inventory or a duplicate name is a silent no-op.
 */
module WeaponManager {
  import opened Wrappers

  /** An engine object, identified by an opaque id. */
  type ObjectId = nat

  /** A spawned weapon: its own id and the prefab it was cloned from. */
  datatype Instance = Instance(id: ObjectId, prefab: ObjectId)

  /**
   * The manager's fields: `weapons` and `names` are kept parallel and
   * `current` is the equipped index. `active[i]` is the engine's active
   * (visible) flag of the object `weapons[i]`.
   */
  datatype Inventory = Inventory(weapons: seq<Instance>, names: seq<string>, current: int, active: seq<bool>)

  /** The keys polled once per frame; each flag means "pressed this frame". */
  datatype Keys = Keys(q: bool, tab: bool, digit1: bool, digit2: bool, digit3: bool)

  predicate UniqueNames(names: seq<string>)
  {
    forall i, j :: 0 <= i < j < |names| ==> names[i] != names[j]
  }

  /** Weapon `i` is shown exactly when it is the equipped one. */
  predicate OnlyCurrentVisible(active: seq<bool>, current: int)
  {
    forall i :: 0 <= i < |active| ==> (active[i] <==> i == current)
  }

  /** The state invariant every reachable inventory satisfies. */
  predicate Valid(inv: Inventory)
  {
    && |inv.names| == |inv.weapons|
    && |inv.active| == |inv.weapons|
    && (inv.current == -1 <==> |inv.weapons| == 0)
    && (|inv.weapons| > 0 ==> 0 <= inv.current < |inv.weapons|)
    && UniqueNames(inv.names)
    && OnlyCurrentVisible(inv.active, inv.current)
  }

  /** The indices of the weapons that are currently shown. */
  ghost function VisibleIndices(active: seq<bool>): set<int>
  {
    set i | 0 <= i < |active| && active[i]
  }

  /** The inventory after construction and `Start`: empty, nothing equipped. */
  function Initial(): (r: Inventory)
    ensures Valid(r)
    ensures |r.weapons| == 0 && |r.names| == 0
  {
    var inv := Inventory([], [], -1, []);
    inv.(active := UpdateWeaponVisibility(inv.active, inv.current))
  }

  /**
   * C#'s `%` on `int` for a positive divisor: the remainder truncated toward
   * zero, which takes the sign of the dividend.
   */
  function CsRem(a: int, n: int): (r: int)
    requires n > 0
    ensures a >= 0 ==> 0 <= r < n
    ensures a < 0 ==> -n < r <= 0
    ensures -n < a < n ==> r == a
    ensures a == n ==> r == 0
    decreases if a >= 0 then a else -a
  {
    if -n < a < n then a
    else if a >= n then CsRem(a - n, n)
    else CsRem(a + n, n)
  }

  /**
   * C#'s `/` on `int` for a positive divisor: the quotient truncated toward
   * zero. Together with `CsRem` it splits the dividend exactly, which with
   * the sign and bound clauses of `CsRem` fixes the remainder uniquely.
   */
  function CsQuot(a: int, n: int): (q: int)
    requires n > 0
    ensures a == q * n + CsRem(a, n)
    ensures a >= 0 ==> q >= 0
    ensures a < 0 ==> q <= 0
    decreases if a >= 0 then a else -a
  {
    if -n < a < n then 0
    else if a >= n then
      var q := CsQuot(a - n, n);
      assert CsRem(a, n) == CsRem(a - n, n);
      MulSucc(q, n);
      q + 1
    else
      var q := CsQuot(a + n, n);
      assert CsRem(a, n) == CsRem(a + n, n);
      MulPred(q, n);
      q - 1
  }

  /** Distributing one extra divisor over a product. */
  lemma MulSucc(q: int, n: int)
    ensures (q + 1) * n == q * n + n
  {
  }

  /** Distributing one divisor fewer over a product. */
  lemma MulPred(q: int, n: int)
    ensures (q - 1) * n == q * n - n
  {
  }

  /**
   * The visibility refresh: walking the list in index order, weapon `i` is
   * activated when `i == current` and deactivated otherwise.
   */
  function UpdateWeaponVisibility(active: seq<bool>, current: int): (r: seq<bool>)
    ensures |r| == |active|
    ensures OnlyCurrentVisible(r, current)
    decreases |active|
  {
    if |active| == 0 then []
    else
      var k := |active| - 1;
      UpdateWeaponVisibility(active[..k], current) + [k == current]
  }

  /**
   * Adds a weapon unless its name is already owned. `spawned` is the id the
   * engine gives the clone of `prefab`, `spawnedActive` the clone's initial
   * active flag (overwritten by the visibility refresh).
   */
  function PickupWeapon(inv: Inventory, prefab: ObjectId, name: string,
                        spawned: ObjectId, spawnedActive: bool): (r: Inventory)
    ensures name in r.names
    ensures name in inv.names ==> r == inv
    ensures name !in inv.names ==>
      && r.names == inv.names + [name]
      && r.weapons == inv.weapons + [Instance(spawned, prefab)]
      && r.current == (if |inv.weapons| == 0 then 0 else inv.current)
      && OnlyCurrentVisible(r.active, r.current)
    ensures Valid(inv) ==> Valid(r)
  {
    if name in inv.names then inv
    else
      var weapons := inv.weapons + [Instance(spawned, prefab)];
      var names := inv.names + [name];
      var current := if |weapons| == 1 then 0 else inv.current;
      var active := UpdateWeaponVisibility(inv.active + [spawnedActive], current);
      Inventory(weapons, names, current, active)
  }

  /** Equips weapon `index`; an index outside the list is ignored. */
  function SwitchToWeapon(inv: Inventory, index: int): (r: Inventory)
    ensures (index < 0 || index >= |inv.weapons|) ==> r == inv
    ensures 0 <= index < |inv.weapons| ==>
      && r.current == index
      && OnlyCurrentVisible(r.active, index)
    ensures r.names == inv.names && r.weapons == inv.weapons
    ensures Valid(inv) ==> Valid(r)
  {
    if index < 0 || index >= |inv.weapons| then inv
    else inv.(current := index, active := UpdateWeaponVisibility(inv.active, index))
  }

  /** Equips the following weapon, wrapping from the last to the first. */
  function SwitchToNextWeapon(inv: Inventory): (r: Inventory)
    ensures |inv.weapons| == 0 ==> r == inv
    ensures Valid(inv) && |inv.weapons| > 0 ==>
      r.current == (if inv.current == |inv.weapons| - 1 then 0 else inv.current + 1)
    ensures r.names == inv.names && r.weapons == inv.weapons
    ensures Valid(inv) ==> Valid(r)
  {
    if |inv.weapons| == 0 then inv
    else
      var current := CsRem(inv.current + 1, |inv.weapons|);
      inv.(current := current, active := UpdateWeaponVisibility(inv.active, current))
  }

  /** Equips the preceding weapon, wrapping from the first to the last. */
  function SwitchToPreviousWeapon(inv: Inventory): (r: Inventory)
    ensures |inv.weapons| == 0 ==> r == inv
    ensures Valid(inv) && |inv.weapons| > 0 ==>
      r.current == (if inv.current == 0 then |inv.weapons| - 1 else inv.current - 1)
    ensures r.names == inv.names && r.weapons == inv.weapons
    ensures Valid(inv) ==> Valid(r)
  {
    if |inv.weapons| == 0 then inv
    else
      var decremented := inv.current - 1;
      var current := if decremented < 0 then |inv.weapons| - 1 else decremented;
      inv.(current := current, active := UpdateWeaponVisibility(inv.active, current))
  }

  /** No digit key of this frame passes its inventory-size guard. */
  predicate NoDigitSelects(k: Keys, count: int)
  {
    && (!k.digit1 || count <= 0)
    && (!k.digit2 || count <= 1)
    && (!k.digit3 || count <= 2)
  }

  /**
   * One frame of key handling. Nothing happens without a keyboard. Q
   * (previous) takes priority over Tab (next); then the first digit key
   * 1..3 whose slot exists selects that slot, overriding the Q/Tab switch.
   */
  function Update(inv: Inventory, keyboard: Option<Keys>): (r: Inventory)
    ensures keyboard.None? ==> r == inv
    ensures r.names == inv.names && r.weapons == inv.weapons
    ensures Valid(inv) ==> Valid(r)
    ensures keyboard.Some? ==>
      var k := keyboard.value;
      var n := |inv.weapons|;
      && (k.digit1 && n > 0 ==> r.current == 0)
      && (!k.digit1 && k.digit2 && n > 1 ==> r.current == 1)
      && (!k.digit1 && !k.digit2 && k.digit3 && n > 2 ==> r.current == 2)
      && (NoDigitSelects(k, n) && k.q ==> r == SwitchToPreviousWeapon(inv))
      && (NoDigitSelects(k, n) && !k.q && k.tab ==> r == SwitchToNextWeapon(inv))
      && (NoDigitSelects(k, n) && !k.q && !k.tab ==> r == inv)
  {
    match keyboard
    case None => inv
    case Some(k) =>
      var switched :=
        if k.q then SwitchToPreviousWeapon(inv)
        else if k.tab then SwitchToNextWeapon(inv)
        else inv;
      var n := |switched.weapons|;
      if k.digit1 && n > 0 then SwitchToWeapon(switched, 0)
      else if k.digit2 && n > 1 then SwitchToWeapon(switched, 1)
      else if k.digit3 && n > 2 then SwitchToWeapon(switched, 2)
      else switched
  }
}
