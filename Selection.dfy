/** `Program.ValidateInputConfig`: the LED and optics quantities of the input
    pick a profile of the named luminary, whose items must then all be present
    with as many pieces as they have areas. */
module Selection {
  import opened Outcomes
  import opened Text
  import opened Settings
  import opened Inputs

  /** The exact sum of the quantities of the components counted as LEDs: those
      whose item starts with the LED prefix. */
  function LedSum(cs: seq<Component>, ledsPrefix: string): int
  {
    if cs == [] then 0
    else
      var c := cs[|cs| - 1];
      LedSum(cs[..|cs| - 1], ledsPrefix) + if StartsWith(c.item, ledsPrefix) then c.quantity else 0
  }

  /** The exact sum of the quantities of the components counted as optics: those
      not counted as LEDs whose item starts with the optics prefix. */
  function OpticsSum(cs: seq<Component>, ledsPrefix: string, opticsPrefix: string): int
  {
    if cs == [] then 0
    else
      var c := cs[|cs| - 1];
      OpticsSum(cs[..|cs| - 1], ledsPrefix, opticsPrefix) +
        if !StartsWith(c.item, ledsPrefix) && StartsWith(c.item, opticsPrefix) then c.quantity else 0
  }

  /** The exact sum of the quantities of the components whose item starts with either prefix. */
  function EitherSum(cs: seq<Component>, p: string, q: string): int
  {
    if cs == [] then 0
    else
      var c := cs[|cs| - 1];
      EitherSum(cs[..|cs| - 1], p, q) + if StartsWith(c.item, p) || StartsWith(c.item, q) then c.quantity else 0
  }

  /** No component is counted twice and none is lost: together the two counts
      cover every component whose item starts with one of the prefixes. */
  lemma {:induction false} CountedOnce(cs: seq<Component>, ledsPrefix: string, opticsPrefix: string)
    ensures LedSum(cs, ledsPrefix) + OpticsSum(cs, ledsPrefix, opticsPrefix) == EitherSum(cs, ledsPrefix, opticsPrefix)
  {
    if cs != [] {
      CountedOnce(cs[..|cs| - 1], ledsPrefix, opticsPrefix);
    }
  }

  /** A profile fits the counts when its area lists have exactly that many areas. */
  predicate Matches(l: LuminaryConfig, ledsCount: int, opticsCount: int)
  {
    TotalAreas(l.leds) == ledsCount && TotalAreas(l.optics) == opticsCount
  }

  /** `FirstOrDefault`: the index of the first fitting profile, in list order. */
  function FirstMatch(profiles: seq<LuminaryConfig>, ledsCount: int, opticsCount: int): (r: Option<nat>)
    ensures r.Some? ==> r.value < |profiles| && Matches(profiles[r.value], ledsCount, opticsCount)
    ensures r.Some? ==> forall j :: 0 <= j < r.value ==> !Matches(profiles[j], ledsCount, opticsCount)
    ensures r.None? <==> forall j :: 0 <= j < |profiles| ==> !Matches(profiles[j], ledsCount, opticsCount)
  {
    if profiles == [] then None
    else if Matches(profiles[0], ledsCount, opticsCount) then Some(0)
    else
      match FirstMatch(profiles[1..], ledsCount, opticsCount)
      case None => None
      case Some(j) => Some(j + 1)
  }

  /** Every item of `entries` is a component whose quantity is its number of areas. */
  predicate Covered(entries: ItemAreas, cs: seq<Component>)
  {
    forall i :: 0 <= i < |entries| ==>
      Lookup(cs, entries[i].0).Some? && Lookup(cs, entries[i].0).value.quantity == |entries[i].1|
  }

  /** The check of one area list (`kind` is "LED" or "optics"): the message for
      the first item that is missing or has the wrong quantity. */
  function ItemError(entries: ItemAreas, cs: seq<Component>, kind: string): (r: Option<string>)
    ensures r.None? <==> Covered(entries, cs)
  {
    if entries == [] then None
    else
      var item := entries[0].0;
      match Lookup(cs, item)
      case None => Some("No " + kind + " component with item [" + item + "].")
      case Some(c) =>
        if c.quantity != |entries[0].1| then Some("Areas and quantity mismatch for " + kind + " item [" + item + "].")
        else
          var rest := ItemError(entries[1..], cs, kind);
          assert Covered(entries[1..], cs) ==> Covered(entries, cs) by {
            if Covered(entries[1..], cs) {
              forall i | 0 < i < |entries| ensures Lookup(cs, entries[i].0).Some? {
                assert entries[i] == entries[1..][i - 1];
              }
            }
          }
          rest
  }

  /** The LED and optics counts as the tool computes them, in unchecked `int`. */
  function Counts(config: Config, cs: seq<Component>): (int, int)
  {
    (Wrap32(LedSum(cs, config.ledsPrefix)), Wrap32(OpticsSum(cs, config.ledsPrefix, config.opticsPrefix)))
  }

  function NoProfile(ledsCount: int, opticsCount: int, luminary: string): string
  {
    "No config for [" + IntToString(ledsCount) + "] LEDs and [" + IntToString(opticsCount) +
      "] optics in [" + luminary + "]."
  }

  /** The outcome of `ValidateInputConfig`: the chosen profile, or the message it stops with. */
  function Selected(config: Config, input: InputState): Result<LuminaryConfig>
  {
    if input.luminary !in config.luminaries then Err("Unknown luminary [" + input.luminary + "].")
    else
      var (ledsCount, opticsCount) := Counts(config, input.components);
      var profiles := config.luminaries[input.luminary];
      match FirstMatch(profiles, ledsCount, opticsCount)
      case None => Err(NoProfile(ledsCount, opticsCount, input.luminary))
      case Some(k) =>
        match ItemError(profiles[k].leds, input.components, "LED")
        case Some(m) => Err(m)
        case None =>
          match ItemError(profiles[k].optics, input.components, "optics")
          case Some(m) => Err(m)
          case None => Ok(profiles[k])
  }

  /** A profile is chosen exactly when the luminary is known, some profile fits
      the counts and the first fitting one has all its items, with the right
      quantities, among the components; the chosen one is that first fitting one. */
  lemma SelectedMeaning(config: Config, input: InputState)
    ensures Selected(config, input).Ok? <==>
      input.luminary in config.luminaries &&
      var profiles := config.luminaries[input.luminary];
      var (ledsCount, opticsCount) := Counts(config, input.components);
      exists k | 0 <= k < |profiles| ::
        Matches(profiles[k], ledsCount, opticsCount) &&
        (forall j :: 0 <= j < k ==> !Matches(profiles[j], ledsCount, opticsCount)) &&
        Covered(profiles[k].leds, input.components) && Covered(profiles[k].optics, input.components)
    ensures Selected(config, input).Ok? ==>
      var l := Selected(config, input).value;
      var (ledsCount, opticsCount) := Counts(config, input.components);
      l in config.luminaries[input.luminary] && Matches(l, ledsCount, opticsCount) &&
      Covered(l.leds, input.components) && Covered(l.optics, input.components)
  {
    if input.luminary in config.luminaries {
      var profiles := config.luminaries[input.luminary];
      var (ledsCount, opticsCount) := Counts(config, input.components);
      var f := FirstMatch(profiles, ledsCount, opticsCount);
      if f.Some? {
        assert profiles[f.value] in profiles;
      }
      forall k | 0 <= k < |profiles| &&
        Matches(profiles[k], ledsCount, opticsCount) &&
        (forall j :: 0 <= j < k ==> !Matches(profiles[j], ledsCount, opticsCount))
        ensures f == Some(k)
      {
      }
    }
  }

  /** The check of one area list, as the two `foreach` loops do it. */
  method CheckItems(entries: ItemAreas, input: Input, kind: string) returns (err: Option<string>)
    ensures err == ItemError(entries, input.components, kind)
  {
    var i := 0;
    while i < |entries|
      invariant 0 <= i <= |entries|
      invariant ItemError(entries, input.components, kind) == ItemError(entries[i..], input.components, kind)
    {
      assert entries[i..][1..] == entries[i + 1..];
      var item := entries[i].0;
      var areas := entries[i].1;
      var found := Lookup(input.components, item);
      if found.None? {
        return Some("No " + kind + " component with item [" + item + "].");
      }
      if found.value.quantity != |areas| {
        return Some("Areas and quantity mismatch for " + kind + " item [" + item + "].");
      }
      i := i + 1;
    }
    return None;
  }

  /** `ValidateInputConfig()`: counts the quantities, picks the profile and checks its items. */
  method ValidateInputConfig(config: Config, input: Input) returns (r: Result<LuminaryConfig>)
    ensures r == Selected(config, input.State())
  {
    if input.luminary !in config.luminaries {
      return Err("Unknown luminary [" + input.luminary + "].");
    }
    var cs := input.components;
    var ledsCount := 0;
    var opticsCount := 0;
    var i := 0;
    while i < |cs|
      invariant 0 <= i <= |cs|
      invariant ledsCount == Wrap32(LedSum(cs[..i], config.ledsPrefix))
      invariant opticsCount == Wrap32(OpticsSum(cs[..i], config.ledsPrefix, config.opticsPrefix))
    {
      assert cs[..i + 1][..i] == cs[..i];
      var c := cs[i];
      if StartsWith(c.item, config.ledsPrefix) {
        Wrap32Add(LedSum(cs[..i], config.ledsPrefix), c.quantity);
        ledsCount := Wrap32(ledsCount + c.quantity);
      } else if StartsWith(c.item, config.opticsPrefix) {
        Wrap32Add(OpticsSum(cs[..i], config.ledsPrefix, config.opticsPrefix), c.quantity);
        opticsCount := Wrap32(opticsCount + c.quantity);
      }
      i := i + 1;
    }
    assert cs[..i] == cs;

    var profiles := config.luminaries[input.luminary];
    var k := 0;
    var chosen: Option<nat> := None;
    while k < |profiles| && chosen.None?
      invariant 0 <= k <= |profiles|
      invariant chosen.None? ==> forall j :: 0 <= j < k ==> !Matches(profiles[j], ledsCount, opticsCount)
      invariant chosen.Some? ==> chosen == FirstMatch(profiles, ledsCount, opticsCount)
    {
      var leds := profiles[k].CountLeds();
      if leds == ledsCount {
        var optics := profiles[k].CountOptics();
        if optics == opticsCount {
          chosen := Some(k);
        }
      }
      k := k + 1;
    }
    if chosen.None? {
      return Err(NoProfile(ledsCount, opticsCount, input.luminary));
    }
    var luminary := profiles[chosen.value];
    var err := CheckItems(luminary.leds, input, "LED");
    if err.Some? {
      return Err(err.value);
    }
    err := CheckItems(luminary.optics, input, "optics");
    if err.Some? {
      return Err(err.value);
    }
    return Ok(luminary);
  }
}
