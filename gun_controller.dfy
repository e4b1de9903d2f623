/**
 * The gun's ammunition, fire-rate and reload state machine
 * (Assets/Scripts/GunController.cs).
 *
 * A pull of the trigger fires one round unless the gun is reloading or the
 * last shot was less than fireRate ago; with an empty magazine it starts a
 * reload instead, and the shot that empties the magazine starts one too. A
 * reload cannot be started twice, and when its timer runs out the magazine is
 * full again. The engine's clock is the parameter `now`; the two coroutine
 * tails that end a reload and the shooting animation are the events
 * FinishReload and ResetShoot.
 *
 * The transitions are stated once, as functions on the value type GunState;
 * the class GunController keeps the source's fields and its methods are
 * proved to perform exactly those transitions.
 */
module Gun {

  /** The inspector defaults of magSize and fireRate. */
  const DefaultMagSize := 20
  const DefaultFireRate: real := 0.25

  /** The designer-configured magazine size and minimum time between shots. */
  datatype Settings = Settings(magSize: int, fireRate: real)

  /** A snapshot of currentAmmo, isReloading, lastFireTime and IsShooting. */
  datatype GunState = GunState(ammo: int, reloading: bool, lastFireTime: real, shooting: bool)

  /**
   * The gun invariant, kept by every operation once Start has run: the magazine
   * never holds more than magSize nor a negative count (unless magSize itself is
   * negative, when it holds exactly magSize), and a gun with a positive magazine
   * size that is not reloading always has a round to fire.
   */
  predicate Ready(s: Settings, g: GunState) {
    && g.ammo <= s.magSize
    && (0 <= g.ammo || g.ammo == s.magSize)
    && (s.magSize > 0 && !g.reloading ==> g.ammo > 0)
  }

  /** With a non-negative magazine size the invariant gives the plain range 0..magSize. */
  lemma ReadyRange(s: Settings, g: GunState)
    requires Ready(s, g) && s.magSize >= 0
    ensures 0 <= g.ammo <= s.magSize
  {
  }

  /** The state as instantiated: C#'s default field values. */
  function Unstarted(): GunState {
    GunState(0, false, 0.0, false)
  }

  /** Start: a full magazine; the gun is ready whatever the other fields hold. */
  function Started(s: Settings, g: GunState): (r: GunState)
    ensures Ready(s, r)
    ensures r.ammo == s.magSize
    ensures r.reloading == g.reloading && r.lastFireTime == g.lastFireTime && r.shooting == g.shooting
  {
    g.(ammo := s.magSize)
  }

  /** The trigger pull at time now is inside the fire-rate window of the last shot. */
  predicate CoolingDown(s: Settings, g: GunState, now: real) {
    now - g.lastFireTime < s.fireRate
  }

  /** A trigger pull at time now fires a round. */
  predicate Fires(s: Settings, g: GunState, now: real) {
    !g.reloading && !CoolingDown(s, g, now) && g.ammo > 0
  }

  /** OnReload: start a reload unless one is running; nothing else changes. */
  function Reloaded(g: GunState): (r: GunState)
    ensures r.reloading
    ensures r.ammo == g.ammo && r.lastFireTime == g.lastFireTime && r.shooting == g.shooting
  {
    if g.reloading then g else g.(reloading := true)
  }

  /** A second OnReload changes nothing. */
  lemma ReloadIdempotent(g: GunState)
    ensures Reloaded(Reloaded(g)) == Reloaded(g)
  {
  }

  /** OnShoot at time now. */
  function Shot(s: Settings, g: GunState, now: real): (r: GunState)
    ensures g.reloading || CoolingDown(s, g, now) ==> r == g
    ensures !g.reloading && !CoolingDown(s, g, now) && g.ammo <= 0 ==> r == Reloaded(g)
    ensures Fires(s, g, now) ==>
              && r.ammo == g.ammo - 1
              && r.lastFireTime == now
              && r.shooting
              && (r.reloading <==> r.ammo == 0)
    ensures !Fires(s, g, now) ==>
              r.ammo == g.ammo && r.lastFireTime == g.lastFireTime && r.shooting == g.shooting
    ensures Ready(s, g) ==> Ready(s, r)
  {
    if g.reloading then g
    else if CoolingDown(s, g, now) then g
    else if g.ammo <= 0 then Reloaded(g)
    else
      var fired := g.(lastFireTime := now, ammo := g.ammo - 1, shooting := true);
      if fired.ammo <= 0 then Reloaded(fired) else fired
  }

  /**
   * Two shots that both fire are at least fireRate apart: the one-step special
   * case of FireRateRespected, stated on Shot directly.
   */
  lemma ShotsSpacedByFireRate(s: Settings, g: GunState, t1: real, t2: real)
    requires Fires(s, g, t1)
    requires Fires(s, Shot(s, g, t1), t2)
    ensures t2 - t1 >= s.fireRate
  {
  }

  /** The end of the reload coroutine: the magazine is full and the gun ready. */
  function Refilled(s: Settings, g: GunState): (r: GunState)
    ensures Ready(s, r)
    ensures !r.reloading && r.ammo == s.magSize
    ensures r.lastFireTime == g.lastFireTime && r.shooting == g.shooting
  {
    g.(reloading := false, ammo := s.magSize)
  }

  /** The end of the shooting-animation coroutine: the shooting flag drops. */
  function Settled(g: GunState): (r: GunState)
    ensures !r.shooting
    ensures r.ammo == g.ammo && r.reloading == g.reloading && r.lastFireTime == g.lastFireTime
  {
    g.(shooting := false)
  }

  /** What can happen to the gun: input callbacks and the two coroutine tails. */
  datatype Event = Pull(now: real) | ReloadInput | ReloadElapsed | ShootElapsed

  function Step(s: Settings, g: GunState, e: Event): (r: GunState)
    ensures Ready(s, g) ==> Ready(s, r)
    ensures !e.ReloadElapsed? ==>
              r.ammo == g.ammo - (if e.Pull? && Fires(s, g, e.now) then 1 else 0)
    ensures r.lastFireTime == (if e.Pull? && Fires(s, g, e.now) then e.now else g.lastFireTime)
  {
    match e
    case Pull(now) => Shot(s, g, now)
    case ReloadInput => Reloaded(g)
    case ReloadElapsed => Refilled(s, g)
    case ShootElapsed => Settled(g)
  }

  /** The gun after the events es, in order. */
  function Run(s: Settings, g: GunState, es: seq<Event>): GunState
    decreases |es|
  {
    if es == [] then g else Run(s, Step(s, g, es[0]), es[1..])
  }

  /** The times of the trigger pulls among es that fire a round, in order. */
  function ShotTimes(s: Settings, g: GunState, es: seq<Event>): seq<real>
    decreases |es|
  {
    if es == [] then []
    else
      var e := es[0];
      (if e.Pull? && Fires(s, g, e.now) then [e.now] else []) + ShotTimes(s, Step(s, g, e), es[1..])
  }

  /** No reload completes during es. */
  predicate NoRefill(es: seq<Event>) {
    forall i :: 0 <= i < |es| ==> !es[i].ReloadElapsed?
  }

  /** Each time in ts is at least gap after the one before it, the first at least gap after start. */
  predicate Spaced(ts: seq<real>, start: real, gap: real) {
    && (|ts| > 0 ==> ts[0] - start >= gap)
    && forall i :: 0 < i < |ts| ==> ts[i] - ts[i - 1] >= gap
  }

  /** A time gap after start, followed by times spaced from it, is spaced from start. */
  lemma SpacedCons(t: real, ts: seq<real>, start: real, gap: real)
    requires t - start >= gap && Spaced(ts, t, gap)
    ensures Spaced([t] + ts, start, gap)
  {
  }

  /** The gun invariant holds after any sequence of events. */
  lemma {:induction false} RunKeepsReady(s: Settings, g: GunState, es: seq<Event>)
    requires Ready(s, g)
    ensures Ready(s, Run(s, g, es))
    decreases |es|
  {
    if es != [] {
      RunKeepsReady(s, Step(s, g, es[0]), es[1..]);
    }
  }

  /**
   * Every round is accounted for: until a reload completes, the rounds fired
   * plus the rounds left are the rounds there were.
   */
  lemma {:induction false} RoundsAccounted(s: Settings, g: GunState, es: seq<Event>)
    requires NoRefill(es)
    ensures |ShotTimes(s, g, es)| + Run(s, g, es).ammo == g.ammo
    decreases |es|
  {
    if es != [] {
      assert NoRefill(es[1..]) by {
        forall i | 0 <= i < |es| - 1 ensures !es[1..][i].ReloadElapsed? {
          assert es[1..][i] == es[i + 1];
        }
      }
      RoundsAccounted(s, Step(s, g, es[0]), es[1..]);
    }
  }

  /** Between two reload completions at most magSize rounds are fired. */
  lemma MagazineLimit(s: Settings, g: GunState, es: seq<Event>)
    requires Ready(s, g) && NoRefill(es)
    ensures |ShotTimes(s, g, es)| <= (if s.magSize < 0 then 0 else s.magSize)
  {
    RoundsAccounted(s, g, es);
    RunKeepsReady(s, g, es);
  }

  /** The fire rate holds over any sequence of events: every round fired comes at least fireRate after the one before it. */
  lemma {:induction false} FireRateRespected(s: Settings, g: GunState, es: seq<Event>)
    ensures Spaced(ShotTimes(s, g, es), g.lastFireTime, s.fireRate)
    decreases |es|
  {
    if es != [] {
      var e, g' := es[0], Step(s, g, es[0]);
      FireRateRespected(s, g', es[1..]);
      if e.Pull? && Fires(s, g, e.now) {
        SpacedCons(e.now, ShotTimes(s, g', es[1..]), g.lastFireTime, s.fireRate);
      }
    }
  }

  /** After any sequence of events the gun remembers the time of the last round it fired. */
  lemma {:induction false} LastShotRemembered(s: Settings, g: GunState, es: seq<Event>)
    ensures var ts := ShotTimes(s, g, es);
            Run(s, g, es).lastFireTime == if ts == [] then g.lastFireTime else ts[|ts| - 1]
    decreases |es|
  {
    if es != [] {
      var e, g' := es[0], Step(s, g, es[0]);
      LastShotRemembered(s, g', es[1..]);
      var rest := ShotTimes(s, g', es[1..]);
      if e.Pull? && Fires(s, g, e.now) {
        assert ShotTimes(s, g, es) == [e.now] + rest;
      }
    }
  }

  /** The GunController component: the source's fields, updated in place. */
  class GunController {
    const magSize: int
    const fireRate: real
    var currentAmmo: int
    var isReloading: bool
    var lastFireTime: real
    var IsShooting: bool

    function Config(): Settings {
      Settings(magSize, fireRate)
    }

    function State(): GunState
      reads this
    {
      GunState(currentAmmo, isReloading, lastFireTime, IsShooting)
    }

    ghost predicate Valid()
      reads this
    {
      Ready(Config(), State())
    }

    /** The component as instantiated: the inspector settings and C#'s default field values. */
    constructor (magSize: int := DefaultMagSize, fireRate: real := DefaultFireRate)
      ensures Config() == Settings(magSize, fireRate)
      ensures State() == Unstarted()
    {
      this.magSize := magSize;
      this.fireRate := fireRate;
      currentAmmo := 0;
      isReloading := false;
      lastFireTime := 0.0;
      IsShooting := false;
    }

    method Start()
      modifies this
      ensures Valid()
      ensures State() == Started(Config(), old(State()))
    {
      currentAmmo := magSize;
    }

    method OnShoot(now: real)
      requires Valid()
      modifies this
      ensures Valid()
      ensures State() == Shot(Config(), old(State()), now)
    {
      if isReloading {
        return;
      }
      if now - lastFireTime < fireRate {
        return;
      }
      if currentAmmo <= 0 {
        OnReload();
        return;
      }
      lastFireTime := now;
      currentAmmo := currentAmmo - 1;
      IsShooting := true;
      if currentAmmo <= 0 {
        OnReload();
      }
    }

    method OnReload()
      modifies this
      ensures State() == Reloaded(old(State()))
    {
      if isReloading {
        return;
      }
      isReloading := true;
    }

    /** The tail of the ResetReloadFlag coroutine. */
    method FinishReload()
      modifies this
      ensures Valid()
      ensures State() == Refilled(Config(), old(State()))
    {
      isReloading := false;
      currentAmmo := magSize;
    }

    /** The tail of the ResetShootFlag coroutine. */
    method ResetShoot()
      modifies this
      ensures State() == Settled(old(State()))
    {
      IsShooting := false;
    }
  }

  /** A magazine of two rounds emptied and refilled, as a caller sees it through the contracts. */
  method EmptyAndRefill() {
    var gun := new GunController(2);
    gun.Start();
    gun.OnShoot(0.1);
    assert gun.currentAmmo == 2 && !gun.IsShooting;
    gun.OnShoot(0.5);
    assert gun.currentAmmo == 1 && gun.IsShooting && !gun.isReloading;
    gun.OnShoot(0.6);
    assert gun.currentAmmo == 1;
    gun.OnShoot(1.0);
    assert gun.currentAmmo == 0 && gun.isReloading;
    gun.OnShoot(2.0);
    assert gun.currentAmmo == 0;
    gun.FinishReload();
    assert gun.currentAmmo == 2 && !gun.isReloading;
  }
}
