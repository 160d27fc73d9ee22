/** The `Accessory` of index.js: configuration checks, the window capacity
    `maxElems`, and the tick `addReading` that reads the sensor, updates the
    window and writes the two outputs (ambient light level and status fault). */
module SensorAverage {
  import opened Wrappers
  import opened Window
  import opened Bridge

  /** The accessory's configuration; an absent option is `None`. */
  datatype Config = Config(name: Option<string>, bridgeId: Option<string>, bridgeKey: Option<string>,
                           sensorId: Option<string>, timeWindow: Option<real>, pollInterval: Option<real>)

  /** A configuration that passed the checks, with its defaults filled in. */
  datatype Settings = Settings(bridgeId: string, bridgeKey: string, sensorId: string,
                               timeWindow: real, pollInterval: real, maxElems: int)

  /** The values written to the status-fault characteristic. */
  datatype StatusFault = NoFault | GeneralFault

  /** A required string option passes `!value` when present and not empty. */
  predicate Present(s: Option<string>)
  {
    s.Some? && s.value != ""
  }

  /** `value || fallback` on a numeric option: absent and zero are falsy. */
  function Or(v: Option<real>, fallback: real): (r: real)
    ensures v.Some? && v.value != 0.0 ==> r == v.value
    ensures v.None? || v.value == 0.0 ==> r == fallback
  {
    if v.Some? && v.value != 0.0 then v.value else fallback
  }

  /** `Math.floor(timeWindow / pollInterval)`: the greatest integer not above the ratio. */
  function Capacity(timeWindow: real, pollInterval: real): (r: int)
    requires pollInterval != 0.0
    ensures r as real <= timeWindow / pollInterval < r as real + 1.0
  {
    (timeWindow / pollInterval).Floor
  }

  /** A non-negative window shorter than the poll interval gives a capacity of zero. */
  lemma ShortWindowHasNoCapacity(timeWindow: real, pollInterval: real)
    requires 0.0 <= timeWindow < pollInterval
    ensures Capacity(timeWindow, pollInterval) == 0
  {
  }

  /** A window at least one poll interval long gives a capacity of at least one. */
  lemma LongWindowHasCapacity(timeWindow: real, pollInterval: real)
    requires 0.0 < pollInterval <= timeWindow
    ensures Capacity(timeWindow, pollInterval) >= 1
  {
    assert timeWindow / pollInterval >= 1.0;
  }

  /** The checks of the `Accessory` constructor: the bridge id, the bridge key
      and the sensor id must all be truthy; the time window and the poll
      interval default to 900 and 30 seconds. */
  function Validate(c: Config): (r: Option<Settings>)
    ensures r.Some? <==> Present(c.bridgeId) && Present(c.bridgeKey) && Present(c.sensorId)
    ensures r.Some? ==> r.value.bridgeId == c.bridgeId.value && r.value.bridgeKey == c.bridgeKey.value
                        && r.value.sensorId == c.sensorId.value
    ensures r.Some? ==> r.value.timeWindow == Or(c.timeWindow, 900.0)
                        && r.value.pollInterval == Or(c.pollInterval, 30.0)
    ensures r.Some? ==> r.value.pollInterval != 0.0
                        && r.value.maxElems == Capacity(r.value.timeWindow, r.value.pollInterval)
  {
    if !Present(c.bridgeId) || !Present(c.bridgeKey) || !Present(c.sensorId) then None
    else
      var timeWindow := Or(c.timeWindow, 900.0);
      var pollInterval := Or(c.pollInterval, 30.0);
      Some(Settings(c.bridgeId.value, c.bridgeKey.value, c.sensorId.value,
                    timeWindow, pollInterval, Capacity(timeWindow, pollInterval)))
  }

  /** Without a time window or a poll interval the window keeps 900 / 30 = 30 readings. */
  lemma DefaultCapacity(c: Config)
    requires Present(c.bridgeId) && Present(c.bridgeKey) && Present(c.sensorId)
    requires c.timeWindow.None? && c.pollInterval.None?
    ensures Validate(c).Some? && Validate(c).value.maxElems == 30
  {
  }

  /** A configured window of 120 seconds polled every 30 seconds keeps 4
      readings; a zero poll interval falls back to 30 seconds. */
  lemma ConfiguredCapacity(c: Config)
    requires Present(c.bridgeId) && Present(c.bridgeKey) && Present(c.sensorId)
    requires c.timeWindow == Some(120.0) && (c.pollInterval == Some(30.0) || c.pollInterval == Some(0.0))
    ensures Validate(c).Some? && Validate(c).value.pollInterval == 30.0 && Validate(c).value.maxElems == 4
  {
  }

  /** Only a truthy reading is accepted: `null` and `0` are not. */
  predicate Truthy(reading: Option<real>)
    ensures Truthy(reading) <==> reading != None && reading != Some(0.0)
  {
    reading.Some? && reading.value != 0.0
  }

  class Accessory {
    const bridgeId: string
    const bridgeKey: string
    const sensorId: string
    const maxElems: int
    /** Whether the configuration passed the checks, so that a tick was scheduled. */
    const configured: bool
    var readings: seq<real>
    /** Every reading the window accepted, oldest first. */
    ghost var accepted: seq<real>
    /** The last value written to the ambient-light characteristic. */
    var level: Option<int>
    /** The last value written to the status-fault characteristic. */
    var fault: Option<StatusFault>

    /** The window is the one the accepted readings produce. */
    ghost predicate Valid()
      reads this
    {
      readings == Fill(maxElems, accepted)
    }

    /** An incomplete configuration reports a general fault and schedules
        nothing; a complete one starts with an empty window. */
    constructor (config: Config)
      ensures Valid() && accepted == [] && readings == [] && level == None
      ensures configured <==> Validate(config).Some?
      ensures configured ==> var s := Validate(config).value;
                             bridgeId == s.bridgeId && bridgeKey == s.bridgeKey && sensorId == s.sensorId
                             && maxElems == s.maxElems && fault == None
      ensures !configured ==> fault == Some(GeneralFault)
    {
      var settings := Validate(config);
      readings, level := [], None;
      accepted := [];
      if settings.None? {
        bridgeId, bridgeKey, sensorId, maxElems := "", "", "", 0;
        configured := false;
        fault := Some(GeneralFault);
      } else {
        var s := settings.value;
        bridgeId, bridgeKey, sensorId, maxElems := s.bridgeId, s.bridgeKey, s.sensorId, s.maxElems;
        configured := true;
        fault := None;
      }
    }

    /** `addReading`: a truthy reading is pushed into the window, the rounded
        and clamped mean is written as the level and the fault is cleared; any
        other outcome leaves the window and the level alone and reports a
        general fault. */
    method AddReading(hue: BridgeCache, discovery: Discovery, fetch: string -> Fetch,
                      rediscovery: Discovery, toLux: real -> real)
      requires configured && Valid()
      modifies this, hue
      ensures Valid()
      ensures var read := LightLevel(old(hue.hueBridgeIp), bridgeId, bridgeKey, sensorId,
                                     discovery, fetch, rediscovery, toLux);
              hue.hueBridgeIp == read.bridgeIp &&
              if Truthy(read.reading) then
                accepted == old(accepted) + [read.reading.value]
                && readings == Pushed(old(readings), maxElems, read.reading.value)
                && level == Some(Level(Mean(readings))) && fault == Some(NoFault)
              else
                accepted == old(accepted) && readings == old(readings)
                && level == old(level) && fault == Some(GeneralFault)
    {
      var reading := hue.GetLightLevel(bridgeId, bridgeKey, sensorId, discovery, fetch, rediscovery, toLux);
      if Truthy(reading) {
        if |readings| == maxElems {
          readings := Shift(readings);
        }
        readings := readings + [reading.value];
        assert (accepted + [reading.value])[..|accepted|] == accepted;
        accepted := accepted + [reading.value];
        level := Some(Level(Mean(readings)));
        fault := Some(NoFault);
      } else {
        fault := Some(GeneralFault);
      }
    }
  }

  /** With a capacity of at least one, the window of a running accessory holds
      at most `maxElems` readings: the newest ones it accepted, in order. */
  lemma WindowHoldsNewest(a: Accessory)
    requires a.Valid() && a.maxElems >= 1
    ensures |a.readings| <= a.maxElems
    ensures a.readings == a.accepted[|a.accepted| - Min(|a.accepted|, a.maxElems)..]
  {
    FillKeepsNewest(a.maxElems, a.accepted);
  }

  /** With a capacity of zero or less, nothing is ever evicted. */
  lemma WindowKeepsEverything(a: Accessory)
    requires a.Valid() && a.maxElems <= 0
    ensures a.readings == a.accepted
  {
    FillGrows(a.maxElems, a.accepted);
  }

  /** The reported level is always an integer in [0, 100000] and, when the
      window's entries all lie in a range, it is the rounded mean of values
      in that range. */
  lemma LevelOfWindow(w: seq<real>, lo: real, hi: real)
    requires |w| > 0
    requires forall i :: 0 <= i < |w| ==> lo <= w[i] <= hi
    ensures 0 <= Level(Mean(w)) <= 100000
    ensures lo >= 99999.5 ==> Level(Mean(w)) == 100000
    ensures hi < 0.5 ==> Level(Mean(w)) == 0
  {
    MeanWithin(w, lo, hi);
  }
}
