# Hue sensor average — a Dafny model

This project models the core of `homebridge-hue-sensor-average`, a Homebridge
accessory that polls one Hue motion sensor's light level through a Hue bridge
and reports a smoothed ambient light level and a status-fault flag.

What is modelled:

- **Configuration checks** (`SensorAverage.Validate`). The accessory needs a
  truthy `bridgeId`, `bridgeKey` and `sensorId`. Without them it reports
  GENERAL_FAULT and never schedules a tick. `timeWindow` and `pollInterval`
  fall back to 900 and 30 through `||`, so an absent or zero value takes the
  default. The window capacity is `maxElems = floor(timeWindow / pollInterval)`.
- **Bridge address cache and discovery** (`Bridge.BridgeCache`). The
  module-level `hueBridgeIp` is shared by every accessory.
  - `getBridgeIp` scans the discovery answer and overwrites the cache on every
    record whose id matches, so the last match wins.
  - A failed request leaves the cache alone. A `null` entry throws inside the
    scan; matches before it stay applied.
- **Sensor read** (`Bridge.LightLevel`, `Bridge.BridgeCache.GetLightLevel`).
  - It resolves the address only when the cache is not truthy.
  - It requests `"http://" + ip + "/api/" + key + "/sensors/" + id`.
  - It returns the lux value of a numeric `state.lightlevel`, and `null`
    otherwise.
  - A request that throws starts a re-discovery.
- **The tick** (`SensorAverage.Accessory.AddReading`).
  - A truthy reading goes into the `readings` window. The oldest entry is
    shifted out when the window holds exactly `maxElems` entries. The level
    written is `max(0, min(round(mean), 100000))` and the fault is NO_FAULT.
  - A falsy reading (`null` or 0) leaves the window and the level alone and
    writes GENERAL_FAULT.
  - The ghost field `accepted` records every accepted reading, and
    `Valid()` ties the window to it through `Window.Fill`.

Inputs in place of I/O:
- The discovery service's answer is a `Discovery` value.
- The sensor request is a function from the endpoint URL to its outcome (`Fetch`).
- The lux conversion `getLux` is a function parameter `toLux`.
- Readings are real numbers.

Behaviour of index.js that the model keeps as written:
- One sensor is read per accessory: the single `sensorId` option
  (index.js:65).
- Discovery has no rate limit. It runs on every tick that finds no truthy
  cached address (index.js:34-35) and after every failed sensor request
  (index.js:47).
- A capacity of zero or less stays as it is (index.js:76). The eviction test
  `readings.length == maxElems` (index.js:83) then never holds on a non-empty
  window, so the window keeps every reading (`Window.FillGrows`).
- A `null` entry in the discovery answer throws inside the `forEach`
  (index.js:26-27). Matches scanned before it stay in the cache.

## Model

| member | source | states |
|---|---|---|
| `Window.Round` | index.js:85 | `Math.round` gives the integer within half of its argument, rounding halves up |
| `Window.Level` | index.js:85 | the reported level is always an integer in [0, 100000]; it is 0 exactly when the mean is below 0.5 and 100000 exactly when it is at least 99999.5; otherwise it is the mean rounded to the nearest integer |
| `Window.SumWithin` | index.js:12 | the `reduce` sum of n values lying in [lo, hi] lies in [n·lo, n·hi] |
| `Window.MeanWithin` | index.js:12 | `Mean` (`average`) of a non-empty window lies between any lower and any upper bound of its entries |
| `Window.MeanOfConstant` | index.js:12 | `average` of a window of one repeated value is that value |
| `Window.Pushed` | index.js:83-84 | one push grows the window by one unless it was non-empty and held exactly `maxElems` entries (an empty window with `maxElems == 0` still grows); the pushed value is last; a window within a positive capacity stays within it |
| `Window.PushedKeepsNewest` | index.js:83-84 | the entries one push keeps before the new reading are the newest entries of the old window, in their order |
| `Window.PushBelowCapacity` | index.js:83-84 | with fewer than `maxElems` entries a push only appends: no reading is evicted |
| `Window.PushAtCapacity` | index.js:83-84 | a push onto a full window of the newest `maxElems` readings evicts the oldest and keeps the newest `maxElems` readings |
| `Window.FillKeepsNewest` | index.js:76-84 | `Fill` is the window built from the empty array (index.js:78) by accepted readings; with `maxElems >= 1`, after any sequence of accepted readings the window holds at most `maxElems` entries: exactly the newest min(n, maxElems) readings in arrival order, the oldest evicted first |
| `Window.FillGrows` | index.js:76-84 | with `maxElems <= 0`, `Fill` never evicts anything: the window is every accepted reading |
| `Bridge.ScanWithoutMatch` | index.js:26-28 | `Scan` (the `forEach`): a discovery answer with no record matching the bridge id leaves the cached address as it was |
| `Bridge.ScanLastMatch` | index.js:26-28 | `Scan` (the `forEach`): the cached address becomes the `internalipaddress` of the last matching record scanned (last match wins) |
| `Bridge.LastMatch` | index.js:26-28 | the reference for "last match wins": the index of a matching record before the first `null` entry with no matching record after it, or none when no visited record matches |
| `Bridge.Discovered` | index.js:24-30 | after a discovery attempt the cache holds the address of the last matching record; a failed request or an answer with no match leaves it as it was |
| `Bridge.BridgeCache.constructor` | index.js:21 | the shared address cache starts as `null` |
| `Bridge.BridgeCache.GetBridgeIp` | index.js:23-31 | the loop leaves the cache as the scan of the discovery answer makes it; a failed request changes nothing |
| `Bridge.EndpointHost` | index.js:38 | `Endpoint`: the sensor request goes to the cached bridge address: that address is the host of the endpoint URL |
| `Bridge.EndpointSensor` | index.js:38 | `Endpoint`: the URL names the configured sensor as its last path segment |
| `Bridge.Resolved` | index.js:34-36 | a truthy cached address is used as it is, with no discovery |
| `Bridge.LightLevel` | index.js:33-51 | a reading is returned exactly when an address is known after discovery and the request answers with a numeric level, and it is that level converted to lux; a request that throws replaces the cache with the re-discovery's result; every other failure returns `null` and keeps the cache |
| `Bridge.BridgeCache.GetLightLevel` | index.js:33-51 | the reading returned and the cache left behind are those `LightLevel` specifies |
| `SensorAverage.Or` | index.js:73-74 | the or-default of index.js:73-74 on a numeric option: a present non-zero value is kept; an absent or zero value gives the fallback |
| `SensorAverage.Capacity` | index.js:76 | `maxElems` is the greatest integer not above `timeWindow / pollInterval` |
| `SensorAverage.ShortWindowHasNoCapacity` | index.js:76 | a non-negative time window shorter than the poll interval gives `maxElems == 0` |
| `SensorAverage.LongWindowHasCapacity` | index.js:76 | a time window at least one positive poll interval long gives `maxElems >= 1` |
| `SensorAverage.Validate` | index.js:63-76 | the configuration is accepted exactly when bridge id, bridge key and sensor id are all truthy; the accepted settings carry those ids, the time window and poll interval given by `Or` with defaults 900 and 30, a non-zero poll interval, and `maxElems` as the floor of their ratio |
| `SensorAverage.DefaultCapacity` | index.js:73-76 | with no time window and no poll interval the window capacity is 900 / 30 = 30 |
| `SensorAverage.ConfiguredCapacity` | index.js:73-76 | a configured 120-second window with a 30-second (or zero, hence defaulted) poll interval gives `maxElems == 4` |
| `SensorAverage.Truthy` | index.js:82 | a reading is accepted exactly when it is neither `null` nor 0 |
| `SensorAverage.Accessory.constructor` | index.js:53-78 | an incomplete configuration writes GENERAL_FAULT and schedules no tick; a complete one starts with an empty window |
| `SensorAverage.Accessory.AddReading` | index.js:80-89 | a truthy reading is appended after evicting the oldest entry of a full window, the clamped rounded mean becomes the level and the fault is NO_FAULT; a falsy reading leaves window and level unchanged and writes GENERAL_FAULT; the window invariant is kept |
| `SensorAverage.WindowHoldsNewest` | index.js:83-84 | with `maxElems >= 1` a running accessory's window never exceeds `maxElems` and is the newest accepted readings in order |
| `SensorAverage.WindowKeepsEverything` | index.js:76-84 | with `maxElems <= 0` a running accessory's window holds every accepted reading |
| `SensorAverage.LevelOfWindow` | index.js:85 | the level reported from a window is in [0, 100000], and it is 100000 when every entry is at least 99999.5 and 0 when every entry is below 0.5 |

## Left out

- HTTP through axios: the discovery answer and the sensor request are inputs. The discovery URL is fixed and not modelled.
- `getLux` (index.js:17-19) uses floating-point exponentiation. It is the parameter `toLux`, so `getLux(1) == 1` and its monotonicity are not stated.
- Floating point in general: readings, `average` and `Math.round` are on exact reals. NaN (a falsy number) and infinities are not modelled.
- The not-awaited re-discovery after a failed request (index.js:47) is applied before `GetLightLevel` returns. For one sequential tick this gives the same result, because the tick never reads the cache after the read. Its timing relative to other ticks is not modelled.
- `setInterval` scheduling, the first immediate `addReading()` call and overlapping asynchronous ticks (index.js:91-93) are left out. A caller's sequence of `AddReading` calls stands for the ticks.
- Homebridge registration, the `Service`/`Characteristic` objects and `getServices` (index.js:5-9, 57-61, 96-98) are left out. The two characteristic writes are the fields `level` and `fault`.
- Logging calls and the unused `noResponse` error (index.js:14-15) are left out.
- JavaScript type coercion is left out. Ids and the key are strings and the time options are numbers, so a numeric `sensorId` or a string `timeWindow` from the configuration is not modelled. Record ids are compared with string equality in place of `==`.
