/** The shared planet-preference store: one record of appearance settings
    with fixed defaults, changed in place by six actions. Each action merges
    a one-field update into the current state, so it changes that field and
    nothing else. */
module Store {

  /** The four surface textures a planet may have. */
  const SurfaceTypes: set<string> := {"clay", "moss", "sand", "lavender"}

  /** A snapshot of the store's data fields. */
  datatype PlanetState = PlanetState(
    color: string,
    description: string,
    surfaceType: string,
    hasRings: bool,
    hasMoons: bool,
    isPulsing: bool,
    bobbingIntensity: int,
    rotationLevel: int)

  /** The defaults the store is created with. */
  const InitialState: PlanetState :=
    PlanetState("#FFB7B2", "", "clay", false, false, true, 1, 2)

  class PlanetStore {
    var color: string
    var description: string
    var surfaceType: string
    var hasRings: bool
    var hasMoons: bool
    var isPulsing: bool
    var bobbingIntensity: int
    var rotationLevel: int

    /** Holds in every state the store can reach: the surface is one of the
        four textures, and the two fields no action writes keep their
        defaults. */
    ghost predicate Valid()
      reads this
    {
      surfaceType in SurfaceTypes && isPulsing && bobbingIntensity == 1
    }

    function State(): PlanetState
      reads this
    {
      PlanetState(color, description, surfaceType, hasRings, hasMoons, isPulsing, bobbingIntensity, rotationLevel)
    }

    constructor ()
      ensures Valid()
      ensures State() == InitialState
    {
      color := "#FFB7B2";
      description := "";
      surfaceType := "clay";
      hasRings := false;
      hasMoons := false;
      isPulsing := true;
      bobbingIntensity := 1;
      rotationLevel := 2;
    }

    /** `setColor`: stores `c` as given. */
    method SetColor(c: string)
      requires Valid()
      modifies this`color
      ensures Valid()
      ensures State() == old(State()).(color := c)
    {
      color := c;
    }

    /** `setSurfaceType`: the parameter's type admits only the four
        textures. */
    method SetSurfaceType(t: string)
      requires Valid() && t in SurfaceTypes
      modifies this`surfaceType
      ensures Valid()
      ensures State() == old(State()).(surfaceType := t)
    {
      surfaceType := t;
    }

    /** `toggleRings`: negates `hasRings` as read from the current state. */
    method ToggleRings()
      requires Valid()
      modifies this`hasRings
      ensures Valid()
      ensures State() == old(State()).(hasRings := !old(hasRings))
    {
      hasRings := !hasRings;
    }

    /** `toggleMoons`: negates `hasMoons` as read from the current state. */
    method ToggleMoons()
      requires Valid()
      modifies this`hasMoons
      ensures Valid()
      ensures State() == old(State()).(hasMoons := !old(hasMoons))
    {
      hasMoons := !hasMoons;
    }

    /** `setRotationLevel`: stores `level` as given; the 0 to 10 range is
        not enforced. */
    method SetRotationLevel(level: int)
      requires Valid()
      modifies this`rotationLevel
      ensures Valid()
      ensures State() == old(State()).(rotationLevel := level)
    {
      rotationLevel := level;
    }

    /** `setPlanetDescription`: stores `desc` as given. */
    method SetPlanetDescription(desc: string)
      requires Valid()
      modifies this`description
      ensures Valid()
      ensures State() == old(State()).(description := desc)
    {
      description := desc;
    }
  }

  /** Toggling the rings twice gives back the state toggled from. */
  method ToggleRingsTwice(store: PlanetStore)
    requires store.Valid()
    modifies store`hasRings
    ensures store.Valid()
    ensures store.State() == old(store.State())
  {
    store.ToggleRings();
    store.ToggleRings();
  }

  /** Toggling the moons twice gives back the state toggled from. */
  method ToggleMoonsTwice(store: PlanetStore)
    requires store.Valid()
    modifies store`hasMoons
    ensures store.Valid()
    ensures store.State() == old(store.State())
  {
    store.ToggleMoons();
    store.ToggleMoons();
  }
}
