/**
 * Laws of the weapon inventory that relate several operations: visibility
 * follows the equipped index, next and previous undo each other and cycle
 * after `count` steps, and every sequence of operations keeps the state
 * invariant and never removes or reorders an owned weapon.
 */
module WeaponManagerLaws {
  import opened Wrappers
  import opened WeaponManager

  /** The arguments of one `PickupWeapon` call, with the engine's id and active flag for the clone. */
  datatype Request = Request(prefab: ObjectId, name: string, spawned: ObjectId, spawnedActive: bool)

  /** One call into the manager. */
  datatype Event =
    | Acquire(request: Request)
    | Select(index: int)
    | Next
    | Previous
    | Frame(keyboard: Option<Keys>)

  function Acquired(inv: Inventory, q: Request): Inventory
  {
    PickupWeapon(inv, q.prefab, q.name, q.spawned, q.spawnedActive)
  }

  function Apply(inv: Inventory, e: Event): Inventory
  {
    match e
    case Acquire(q) => Acquired(inv, q)
    case Select(index) => SwitchToWeapon(inv, index)
    case Next => SwitchToNextWeapon(inv)
    case Previous => SwitchToPreviousWeapon(inv)
    case Frame(keyboard) => Update(inv, keyboard)
  }

  /** The events applied in order. */
  function Run(inv: Inventory, es: seq<Event>): Inventory
    decreases |es|
  {
    if |es| == 0 then inv else Run(Apply(inv, es[0]), es[1..])
  }

  /**
   * `k` calls of `SwitchToNextWeapon`. From a valid inventory, `k <= count`
   * steps keep the invariant and the lists and advance the index by `k`,
   * wrapping once.
   */
  function NextN(inv: Inventory, k: nat): (r: Inventory)
    ensures Valid(inv) && k <= |inv.weapons| ==>
      && Valid(r) && r.names == inv.names && r.weapons == inv.weapons
      && r.current == (if inv.current + k < |inv.weapons| then inv.current + k else inv.current + k - |inv.weapons|)
  {
    if k == 0 then inv else SwitchToNextWeapon(NextN(inv, k - 1))
  }

  /**
   * `k` calls of `SwitchToPreviousWeapon`. From a valid inventory, `k <= count`
   * steps keep the invariant and the lists and move the index back by `k`,
   * wrapping once.
   */
  function PreviousN(inv: Inventory, k: nat): (r: Inventory)
    ensures Valid(inv) && k <= |inv.weapons| ==>
      && Valid(r) && r.names == inv.names && r.weapons == inv.weapons
      && r.current == (if inv.current - k >= 0 then inv.current - k else inv.current - k + |inv.weapons|)
  {
    if k == 0 then inv else SwitchToPreviousWeapon(PreviousN(inv, k - 1))
  }

  /** The names the requests ask for, in order. */
  function NamesOf(qs: seq<Request>): seq<string>
  {
    seq(|qs|, i requires 0 <= i < |qs| => qs[i].name)
  }

  /** No request repeats a name owned before or asked for by another request. */
  predicate FreshRequests(owned: seq<string>, qs: seq<Request>)
  {
    && (forall i :: 0 <= i < |qs| ==> qs[i].name !in owned)
    && (forall i, j :: 0 <= i < j < |qs| ==> qs[i].name != qs[j].name)
  }

  /** Dropping the last request keeps the rest fresh, and its name is new for what they leave. */
  lemma FreshRequestsPrefix(owned: seq<string>, qs: seq<Request>)
    requires FreshRequests(owned, qs) && |qs| > 0
    ensures FreshRequests(owned, qs[..|qs| - 1])
    ensures qs[|qs| - 1].name !in owned + NamesOf(qs[..|qs| - 1])
  {
    var m := |qs| - 1;
    forall j | 0 <= j < m
      ensures NamesOf(qs[..m])[j] != qs[m].name
    {
      assert qs[..m][j] == qs[j];
    }
  }

  /** The requests handed to `PickupWeapon` in order. */
  function PickupAll(inv: Inventory, qs: seq<Request>): Inventory
    decreases |qs|
  {
    if |qs| == 0 then inv else Acquired(PickupAll(inv, qs[..|qs| - 1]), qs[|qs| - 1])
  }

  /**
   * Picking up `N` weapons with distinct new names appends exactly those
   * names in order and grows the count by `N`; the first weapon picked up
   * into an empty inventory is equipped and later pickups leave the index
   * alone.
   */
  lemma {:induction false} PickupAllAppends(inv: Inventory, qs: seq<Request>)
    requires Valid(inv) && FreshRequests(inv.names, qs)
    ensures Valid(PickupAll(inv, qs))
    ensures PickupAll(inv, qs).names == inv.names + NamesOf(qs)
    ensures |PickupAll(inv, qs).weapons| == |inv.weapons| + |qs|
    ensures PickupAll(inv, qs).current == (if |inv.weapons| == 0 && |qs| > 0 then 0 else inv.current)
    decreases |qs|
  {
    if |qs| > 0 {
      var m := |qs| - 1;
      FreshRequestsPrefix(inv.names, qs);
      PickupAllAppends(inv, qs[..m]);
      assert NamesOf(qs) == NamesOf(qs[..m]) + [qs[m].name];
    }
  }

  /**
   * A valid inventory is determined by its objects, its names and its index:
   * the visibility flags carry no further information.
   */
  lemma ValidDetermined(a: Inventory, b: Inventory)
    requires Valid(a) && Valid(b)
    requires a.weapons == b.weapons && a.names == b.names && a.current == b.current
    ensures a == b
  {
    assert a.active == b.active;
  }

  /** In a valid inventory the shown weapons are exactly the equipped one, or none when empty. */
  lemma VisibleIsCurrent(inv: Inventory)
    requires Valid(inv)
    ensures VisibleIndices(inv.active) == (if |inv.weapons| == 0 then {} else {inv.current})
    ensures |VisibleIndices(inv.active)| <= 1
    ensures inv.current == -1 ==> VisibleIndices(inv.active) == {}
  {
    if |inv.weapons| > 0 {
      assert inv.current in VisibleIndices(inv.active);
    }
  }

  /** The remainder of a number below the divisor is the number itself. */
  lemma ModBelow(x: int, n: int)
    requires 0 <= x < n
    ensures x % n == x
  {
  }

  /** The remainder of a number between the divisor and twice it drops one divisor. */
  lemma ModOnce(x: int, n: int)
    requires 0 < n <= x < 2 * n
    ensures x % n == x - n
  {
    ModBelow(x - n, n);
    assert (x - n) % n == x % n;
  }

  /** Going forward is the step `(i + 1) mod count` of a circular index. */
  lemma NextIsModular(inv: Inventory)
    requires Valid(inv) && |inv.weapons| > 0
    ensures SwitchToNextWeapon(inv).current == (inv.current + 1) % |inv.weapons|
  {
    var n := |inv.weapons|;
    if inv.current + 1 < n {
      ModBelow(inv.current + 1, n);
    } else {
      ModOnce(inv.current + 1, n);
    }
  }

  /** Going back is the step `(i - 1 + count) mod count` of a circular index. */
  lemma PreviousIsModular(inv: Inventory)
    requires Valid(inv) && |inv.weapons| > 0
    ensures SwitchToPreviousWeapon(inv).current == (inv.current - 1 + |inv.weapons|) % |inv.weapons|
  {
    var n := |inv.weapons|;
    if inv.current > 0 {
      ModOnce(inv.current - 1 + n, n);
    } else {
      ModBelow(n - 1, n);
    }
  }

  /** Going back after going forward restores the inventory. */
  lemma PreviousUndoesNext(inv: Inventory)
    requires Valid(inv)
    ensures SwitchToPreviousWeapon(SwitchToNextWeapon(inv)) == inv
  {
    ValidDetermined(SwitchToPreviousWeapon(SwitchToNextWeapon(inv)), inv);
  }

  /** Going forward after going back restores the inventory. */
  lemma NextUndoesPrevious(inv: Inventory)
    requires Valid(inv)
    ensures SwitchToNextWeapon(SwitchToPreviousWeapon(inv)) == inv
  {
    ValidDetermined(SwitchToNextWeapon(SwitchToPreviousWeapon(inv)), inv);
  }

  /** `count` steps forward return to the starting inventory. */
  lemma NextCycle(inv: Inventory)
    requires Valid(inv)
    ensures NextN(inv, |inv.weapons|) == inv
  {
    ValidDetermined(NextN(inv, |inv.weapons|), inv);
  }

  /** `count` steps back return to the starting inventory. */
  lemma PreviousCycle(inv: Inventory)
    requires Valid(inv)
    ensures PreviousN(inv, |inv.weapons|) == inv
  {
    ValidDetermined(PreviousN(inv, |inv.weapons|), inv);
  }

  /** A single manager call keeps the invariant and only appends. */
  lemma ApplyStep(inv: Inventory, e: Event)
    requires Valid(inv)
    ensures Valid(Apply(inv, e))
    ensures inv.names <= Apply(inv, e).names
    ensures inv.weapons <= Apply(inv, e).weapons
  {
  }

  /**
   * Every sequence of manager calls keeps the state invariant, and weapons
   * are only ever appended: the owned names and objects before the run are
   * a prefix of those after it, so a non-empty inventory never becomes empty.
   */
  lemma {:induction false} RunPreservesValid(inv: Inventory, es: seq<Event>)
    requires Valid(inv)
    ensures Valid(Run(inv, es))
    ensures inv.names <= Run(inv, es).names
    ensures inv.weapons <= Run(inv, es).weapons
    decreases |es|
  {
    if |es| > 0 {
      ApplyStep(inv, es[0]);
      RunPreservesValid(Apply(inv, es[0]), es[1..]);
    }
  }

  /**
   * Example: Pistol then Rifle are picked up into an empty inventory; two
   * steps forward wrap back to Pistol, slot 5 is ignored and a second Pistol
   * is refused.
   */
  lemma PistolRifleScenario()
    ensures
      var a := PickupWeapon(Initial(), 10, "Pistol", 20, true);
      var b := PickupWeapon(a, 11, "Rifle", 21, true);
      var c := SwitchToNextWeapon(b);
      var d := SwitchToNextWeapon(c);
      && a.names == ["Pistol"] && a.current == 0
      && b.names == ["Pistol", "Rifle"] && b.current == 0
      && c.current == 1 && OnlyCurrentVisible(c.active, 1)
      && d.current == 0
      && SwitchToWeapon(d, 5) == d
      && PickupWeapon(a, 12, "Pistol", 22, false) == a
  {
    var a := PickupWeapon(Initial(), 10, "Pistol", 20, true);
    assert "Rifle" != "Pistol";
    var b := PickupWeapon(a, 11, "Rifle", 21, true);
    assert |b.weapons| == 2;
  }
}
