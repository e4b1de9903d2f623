/**
 * The player's health and armour ledger (Assets/Scripts/PlayerHealth.cs).
 *
 * The ledger holds three values: health, armour and a "dead" latch. A hit is
 * taken by armour first and only what armour cannot take comes off health;
 * health and armour are never driven below zero; healing and armour pickups
 * are capped at the configured maxima; once the player has died nothing
 * changes any more.
 *
 * The transitions are stated once, as functions on the value type Vitals;
 * the class PlayerHealth keeps the source's fields and its methods are proved
 * to perform exactly those transitions.
 */
module Health {
  import opened Mathf

  /** The inspector defaults of maxHealth and maxArmor. */
  const DefaultMaxHealth := 100
  const DefaultMaxArmor := 100

  /** Armour granted by one call of AddArmor. */
  const ArmorPerPickup := 25

  /** The designer-configured maxima. */
  datatype Limits = Limits(maxHealth: int, maxArmor: int)

  /** A snapshot of the ledger: currentHealth, currentArmor and isDead. */
  datatype Vitals = Vitals(health: int, armor: int, dead: bool)

  /** The largest value a pool can hold: its maximum, or 0 when the maximum is configured below 0. */
  function Ceiling(max: int): (c: int)
    ensures c >= 0 && c >= max
    ensures c == max || c == 0
  {
    Max(max, 0)
  }

  /**
   * A value a pool with maximum max can hold: never above the ceiling, and
   * never negative unless it still holds the (negative) maximum it started with.
   */
  predicate Bounded(x: int, max: int) {
    x <= Ceiling(max) && (0 <= x || x == max)
  }

  /** The ledger invariant, kept by every operation once Start has run. */
  predicate Consistent(lim: Limits, v: Vitals) {
    && Bounded(v.health, lim.maxHealth)
    && Bounded(v.armor, lim.maxArmor)
    && (v.dead ==> v.health <= 0)
    && (lim.maxHealth > 0 ==> (v.dead <==> v.health == 0))
  }

  /** With non-negative maxima the invariant is the plain range 0..max for both pools. */
  lemma ConsistentRanges(lim: Limits, v: Vitals)
    requires Consistent(lim, v)
    requires lim.maxHealth >= 0 && lim.maxArmor >= 0
    ensures 0 <= v.health <= lim.maxHealth
    ensures 0 <= v.armor <= lim.maxArmor
  {
  }

  /** The ledger right after Start: both pools full and alive. */
  function Spawn(lim: Limits): (v: Vitals)
    ensures Consistent(lim, v)
    ensures !v.dead && v.health == lim.maxHealth && v.armor == lim.maxArmor
  {
    Vitals(lim.maxHealth, lim.maxArmor, false)
  }

  /**
   * The declarative reading of a hit of d > 0 on a living player whose pools
   * are not negative: the pools only go down and stay at least 0, together they
   * lose exactly the damage or everything they had, health loses something only
   * once armour is gone, and the player is dead exactly when health is 0.
   */
  predicate Absorbs(v: Vitals, d: int, r: Vitals) {
    && 0 <= r.armor <= v.armor
    && 0 <= r.health <= v.health
    && (v.armor - r.armor) + (v.health - r.health) == Min(d, v.armor + v.health)
    && (r.health < v.health ==> r.armor == 0)
    && (r.dead <==> r.health == 0)
  }

  /** Die: latch the dead flag. */
  function Killed(v: Vitals): (r: Vitals)
    ensures r.dead && r.health == v.health && r.armor == v.armor
  {
    v.(dead := true)
  }

  /** TakeDamage(d). */
  function AfterDamage(v: Vitals, d: int): (r: Vitals)
    ensures v.dead || d <= 0 ==> r == v
    ensures !v.dead && d > 0 ==> (r.dead <==> r.health <= 0)
    ensures r.armor <= v.armor && r.health <= Max(v.health, 0)
    ensures 0 <= r.armor || r.armor == v.armor
    ensures 0 <= r.health || r.health == v.health
    ensures r.health != v.health ==> r.armor <= 0
    ensures !v.dead && d > 0 && v.health >= 0 && v.armor >= 0 ==> Absorbs(v, d, r)
  {
    if v.dead || d <= 0 then v
    else
      var hit :=
        if v.armor > 0 then
          var leftover := d - v.armor;
          v.(armor := Max(v.armor - d, 0),
             health := if leftover > 0 then Max(v.health - leftover, 0) else v.health)
        else
          v.(health := Max(v.health - d, 0));
      if hit.health <= 0 then Killed(hit) else hit
  }

  /** The hit of AfterDamage is the only outcome that meets the declarative reading. */
  lemma AbsorbsExactly(v: Vitals, d: int, r: Vitals)
    requires !v.dead && d > 0 && v.health >= 0 && v.armor >= 0
    ensures Absorbs(v, d, r) <==> r == AfterDamage(v, d)
  {
  }

  /** Heal(amount). */
  function Healed(lim: Limits, v: Vitals, amount: int): (r: Vitals)
    ensures r.armor == v.armor && r.dead == v.dead
    ensures v.dead || amount <= 0 || v.health >= lim.maxHealth ==> r == v
    ensures !v.dead && amount > 0 && v.health < lim.maxHealth ==>
              r.health - v.health == Min(amount, lim.maxHealth - v.health)
    ensures Consistent(lim, v) ==> Consistent(lim, r)
  {
    if v.dead || amount <= 0 || v.health >= lim.maxHealth then v
    else v.(health := Min(v.health + amount, lim.maxHealth))
  }

  /** C#'s unchecked 32-bit int addition: the exact sum wrapped into -2^31 .. 2^31 - 1. */
  function AddInt32(a: int, b: int): (r: int)
    ensures -0x8000_0000 <= r < 0x8000_0000
    ensures -0x8000_0000 <= a + b < 0x8000_0000 ==> r == a + b
  {
    (a + b + 0x8000_0000) % 0x1_0000_0000 - 0x8000_0000
  }

  /** Heal(amount) as written, with the sum currentHealth + amount computed in 32-bit int. */
  function HealedAsWritten(lim: Limits, v: Vitals, amount: int): (r: Vitals)
    ensures -0x8000_0000 <= v.health + amount < 0x8000_0000 ==> r == Healed(lim, v, amount)
  {
    if v.dead || amount <= 0 || v.health >= lim.maxHealth then v
    else v.(health := Min(AddInt32(v.health, amount), lim.maxHealth))
  }

  /** Healing a half-health player by int.MaxValue leaves health negative instead of full. */
  lemma HealOverflowCounterexample()
    ensures HealedAsWritten(Limits(100, 100), Vitals(50, 0, false), 0x7FFF_FFFF).health < 0
    ensures Healed(Limits(100, 100), Vitals(50, 0, false), 0x7FFF_FFFF).health == 100
  {
  }

  /** AddArmor(). */
  function ArmorAdded(lim: Limits, v: Vitals): (r: Vitals)
    ensures r.health == v.health && r.dead == v.dead
    ensures v.dead || v.armor >= lim.maxArmor ==> r == v
    ensures !v.dead && v.armor < lim.maxArmor ==>
              r.armor - v.armor == Min(ArmorPerPickup, lim.maxArmor - v.armor)
    ensures Consistent(lim, v) ==> Consistent(lim, r)
  {
    if v.dead || v.armor >= lim.maxArmor then v
    else v.(armor := Min(v.armor + ArmorPerPickup, lim.maxArmor))
  }

  /** A hit keeps the ledger invariant. */
  lemma DamageKeepsConsistent(lim: Limits, v: Vitals, d: int)
    ensures Consistent(lim, v) ==> Consistent(lim, AfterDamage(v, d))
  {
  }

  /** The calls other scripts make on the ledger. */
  datatype Event = Damage(amount: int) | Heal(amount: int) | Pickup

  function Apply(lim: Limits, v: Vitals, e: Event): (r: Vitals)
    ensures Consistent(lim, v) ==> Consistent(lim, r)
    ensures v.dead ==> r == v
  {
    match e
    case Damage(d) => DamageKeepsConsistent(lim, v, d); AfterDamage(v, d)
    case Heal(a) => Healed(lim, v, a)
    case Pickup => ArmorAdded(lim, v)
  }

  /** The ledger after the calls es, in order. */
  function Run(lim: Limits, v: Vitals, es: seq<Event>): Vitals
    decreases |es|
  {
    if es == [] then v else Run(lim, Apply(lim, v, es[0]), es[1..])
  }

  /** Death is permanent: after any calls whatever, a dead player's ledger is unchanged. */
  lemma {:induction false} DeathIsPermanent(lim: Limits, v: Vitals, es: seq<Event>)
    requires v.dead
    ensures Run(lim, v, es) == v
    decreases |es|
  {
    if es != [] {
      DeathIsPermanent(lim, Apply(lim, v, es[0]), es[1..]);
    }
  }

  /** The ledger invariant holds after any sequence of calls. */
  lemma {:induction false} RunKeepsConsistent(lim: Limits, v: Vitals, es: seq<Event>)
    requires Consistent(lim, v)
    ensures Consistent(lim, Run(lim, v, es))
    decreases |es|
  {
    if es != [] {
      RunKeepsConsistent(lim, Apply(lim, v, es[0]), es[1..]);
    }
  }

  /** Health never rises unless the player is healed. */
  lemma {:induction false} OnlyHealingRaisesHealth(lim: Limits, v: Vitals, es: seq<Event>)
    requires v.health >= 0
    requires forall i :: 0 <= i < |es| ==> !es[i].Heal?
    ensures 0 <= Run(lim, v, es).health <= v.health
    decreases |es|
  {
    if es != [] {
      OnlyHealingRaisesHealth(lim, Apply(lim, v, es[0]), es[1..]);
    }
  }

  /** Armour never rises unless the player picks some up. */
  lemma {:induction false} OnlyPickupsRaiseArmor(lim: Limits, v: Vitals, es: seq<Event>)
    requires v.armor >= 0
    requires forall i :: 0 <= i < |es| ==> !es[i].Pickup?
    ensures 0 <= Run(lim, v, es).armor <= v.armor
    decreases |es|
  {
    if es != [] {
      OnlyPickupsRaiseArmor(lim, Apply(lim, v, es[0]), es[1..]);
    }
  }

  /** The PlayerHealth component: the source's fields, updated in place. */
  class PlayerHealth {
    const maxHealth: int
    const maxArmor: int
    var currentHealth: int
    var currentArmor: int
    var isDead: bool

    function Settings(): Limits {
      Limits(maxHealth, maxArmor)
    }

    function State(): Vitals
      reads this
    {
      Vitals(currentHealth, currentArmor, isDead)
    }

    ghost predicate Valid()
      reads this
    {
      Consistent(Settings(), State())
    }

    /** The component as instantiated: the inspector maxima and C#'s default field values. */
    constructor (maxHealth: int := DefaultMaxHealth, maxArmor: int := DefaultMaxArmor)
      ensures Settings() == Limits(maxHealth, maxArmor)
      ensures State() == Vitals(0, 0, false)
    {
      this.maxHealth := maxHealth;
      this.maxArmor := maxArmor;
      currentHealth := 0;
      currentArmor := 0;
      isDead := false;
    }

    method Start()
      modifies this
      ensures Valid()
      ensures State() == Spawn(Settings())
    {
      currentHealth := maxHealth;
      currentArmor := maxArmor;
      isDead := false;
    }

    method TakeDamage(damageAmount: int)
      requires Valid()
      modifies this
      ensures Valid()
      ensures State() == AfterDamage(old(State()), damageAmount)
    {
      DamageKeepsConsistent(Settings(), State(), damageAmount);
      if isDead || damageAmount <= 0 {
        return;
      }
      if currentArmor > 0 {
        var leftover := damageAmount - currentArmor;
        currentArmor := Max(currentArmor - damageAmount, 0);
        if leftover > 0 {
          currentHealth := Max(currentHealth - leftover, 0);
        }
      } else {
        currentHealth := Max(currentHealth - damageAmount, 0);
      }
      if currentHealth <= 0 {
        Die();
      }
    }

    method Heal(amount: int)
      requires Valid()
      modifies this
      ensures Valid()
      ensures State() == Healed(Settings(), old(State()), amount)
    {
      if isDead || amount <= 0 || currentHealth >= maxHealth {
        return;
      }
      currentHealth := Min(currentHealth + amount, maxHealth);
    }

    method AddArmor()
      requires Valid()
      modifies this
      ensures Valid()
      ensures State() == ArmorAdded(Settings(), old(State()))
    {
      if isDead || currentArmor >= maxArmor {
        return;
      }
      currentArmor := Min(currentArmor + ArmorPerPickup, maxArmor);
    }

    method Die()
      modifies this
      ensures State() == Killed(old(State()))
    {
      isDead := true;
    }
  }
}
