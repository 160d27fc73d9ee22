/** The module-level part of index.js that talks to the Hue bridge: the cached
    bridge address `hueBridgeIp`, its discovery (`getBridgeIp`) and the read of
    one sensor's light level (`getLightLevel`). The HTTP requests are inputs:
    the discovery service's answer is a `Discovery` value and the sensor
    request is a function from the endpoint URL to its outcome. */
module Bridge {
  import opened Wrappers

  /** One element of the discovery answer: a record whose `id` and
      `internalipaddress` may each be absent, or `null`, on which reading
      `bridge.id` throws and ends the scan. */
  datatype Entry = Record(id: Option<string>, internalIpAddress: Option<string>) | Null

  /** The discovery request either failed (network error, or an answer whose
      body is not a list) or produced a list of entries. */
  datatype Discovery = Failed | Listed(entries: seq<Entry>)

  /** The sensor request either threw (network error, or an answer without a
      `state` object) or produced `state.lightlevel`, which is a number or some
      other value (`None`). */
  datatype Fetch = Threw | Answered(lightLevel: Option<real>)

  /** The outcome of one `getLightLevel` call: the bridge address cached
      afterwards and the lux reading, `None` standing for `null`. */
  datatype Read = Read(bridgeIp: Option<string>, reading: Option<real>)

  /** A cached address is usable when it is truthy: present and not empty. */
  predicate Known(ip: Option<string>)
  {
    ip.Some? && ip.value != ""
  }

  predicate Matches(e: Entry, bridgeId: string)
  {
    e.Record? && e.id == Some(bridgeId)
  }

  /** The number of entries the scan visits: those before the first `null`. */
  function Reached(entries: seq<Entry>): (k: nat)
    ensures k <= |entries|
    ensures forall i :: 0 <= i < k ==> entries[i].Record?
    ensures k < |entries| ==> entries[k].Null?
  {
    if entries == [] || entries[0].Null? then 0 else 1 + Reached(entries[1..])
  }

  /** The `forEach` of `getBridgeIp`: every record whose id equals the bridge
      id overwrites the cache with its address, until a `null` entry throws. */
  function Scan(entries: seq<Entry>, bridgeId: string, ip: Option<string>): Option<string>
    decreases |entries|
  {
    if entries == [] then ip
    else match entries[0]
      case Null => ip
      case Record(id, address) => Scan(entries[1..], bridgeId, if id == Some(bridgeId) then address else ip)
  }

  /** With no matching record among the visited entries, the cache is left as it was. */
  lemma {:induction false} ScanWithoutMatch(entries: seq<Entry>, bridgeId: string, ip: Option<string>)
    requires forall k :: 0 <= k < Reached(entries) ==> !Matches(entries[k], bridgeId)
    ensures Scan(entries, bridgeId, ip) == ip
  {
    if entries != [] && entries[0].Record? {
      assert !Matches(entries[0], bridgeId);
      assert forall k :: 0 <= k < Reached(entries[1..]) ==> entries[1..][k] == entries[k + 1];
      ScanWithoutMatch(entries[1..], bridgeId, ip);
    }
  }

  /** The last match wins: when entry `j` matches and no later visited entry
      does, the cache ends up holding entry `j`'s address. */
  lemma {:induction false} ScanLastMatch(entries: seq<Entry>, bridgeId: string, ip: Option<string>, j: nat)
    requires j < Reached(entries) && Matches(entries[j], bridgeId)
    requires forall k :: j < k < Reached(entries) ==> !Matches(entries[k], bridgeId)
    ensures Scan(entries, bridgeId, ip) == entries[j].internalIpAddress
  {
    var rest := entries[1..];
    assert forall k :: 0 <= k < Reached(rest) ==> rest[k] == entries[k + 1];
    if j == 0 {
      ScanWithoutMatch(rest, bridgeId, entries[0].internalIpAddress);
    } else {
      var ip' := if Matches(entries[0], bridgeId) then entries[0].internalIpAddress else ip;
      ScanLastMatch(rest, bridgeId, ip', j - 1);
    }
  }

  /** The index of the last record, before the first `null` entry, whose id
      is the bridge id; `None` when there is no such record. */
  function LastMatch(entries: seq<Entry>, bridgeId: string): (k: Option<nat>)
    ensures k.Some? ==> k.value < Reached(entries) && Matches(entries[k.value], bridgeId)
    ensures k.Some? ==> forall i :: k.value < i < Reached(entries) ==> !Matches(entries[i], bridgeId)
    ensures k.None? ==> forall i :: 0 <= i < Reached(entries) ==> !Matches(entries[i], bridgeId)
  {
    if entries == [] || entries[0].Null? then None
    else
      assert forall i :: 0 <= i < Reached(entries[1..]) ==> entries[1..][i] == entries[i + 1];
      match LastMatch(entries[1..], bridgeId)
      case Some(k) => Some(k + 1)
      case None => if Matches(entries[0], bridgeId) then Some(0) else None
  }

  /** The cache after a discovery attempt: a failed request or an answer
      without a matching record leaves it alone; otherwise it holds the
      address of the last matching record. */
  function Discovered(ip: Option<string>, response: Discovery, bridgeId: string): (r: Option<string>)
    ensures response.Failed? || LastMatch(response.entries, bridgeId).None? ==> r == ip
    ensures response.Listed? && LastMatch(response.entries, bridgeId).Some? ==>
              r == response.entries[LastMatch(response.entries, bridgeId).value].internalIpAddress
  {
    match response
    case Failed => ip
    case Listed(entries) =>
      var k := LastMatch(entries, bridgeId);
      if k.None? then ScanWithoutMatch(entries, bridgeId, ip); Scan(entries, bridgeId, ip)
      else ScanLastMatch(entries, bridgeId, ip, k.value); Scan(entries, bridgeId, ip)
  }

  /** The sensor-state URL requested from the bridge. */
  function Endpoint(ip: string, apiKey: string, sensorId: string): string
  {
    "http://" + ip + "/api/" + apiKey + "/sensors/" + sensorId
  }

  /** The characters of `s` before the first `c` (all of `s` without one). */
  function UpTo(s: string, c: char): (r: string)
    ensures c !in r && r <= s
  {
    if s == [] || s[0] == c then [] else [s[0]] + UpTo(s[1..], c)
  }

  /** The characters of `s` after the last `c` (all of `s` without one). */
  function AfterLast(s: string, c: char): (r: string)
    ensures c !in r && |r| <= |s| && r == s[|s| - |r|..]
  {
    if s == [] || s[|s| - 1] == c then [] else AfterLast(s[..|s| - 1], c) + [s[|s| - 1]]
  }

  /** The host part of an http URL: what follows the scheme, up to the first slash. */
  function Host(url: string): string
  {
    if |url| >= 7 && url[..7] == "http://" then UpTo(url[7..], '/') else ""
  }

  lemma {:induction false} UpToStopsAtFirst(a: string, c: char, b: string)
    requires c !in a
    ensures UpTo(a + [c] + b, c) == a
  {
    if a != [] {
      assert (a + [c] + b)[1..] == a[1..] + [c] + b;
      UpToStopsAtFirst(a[1..], c, b);
    }
  }

  lemma {:induction false} AfterLastStopsAtLast(a: string, c: char, b: string)
    requires c !in b
    ensures AfterLast(a + [c] + b, c) == b
  {
    if b != [] {
      var s := a + [c] + b;
      assert s[..|s| - 1] == a + [c] + b[..|b| - 1];
      AfterLastStopsAtLast(a, c, b[..|b| - 1]);
      assert b[..|b| - 1] + [b[|b| - 1]] == b;
    }
  }

  /** The request goes to the cached bridge address: the host of the endpoint
      is the address whenever the address has no slash in it. */
  lemma EndpointHost(ip: string, apiKey: string, sensorId: string)
    requires '/' !in ip
    ensures Host(Endpoint(ip, apiKey, sensorId)) == ip
  {
    var url := Endpoint(ip, apiKey, sensorId);
    var rest := "api/" + apiKey + "/sensors/" + sensorId;
    assert url[..7] == "http://";
    assert url[7..] == ip + ['/'] + rest;
    UpToStopsAtFirst(ip, '/', rest);
  }

  /** The request names the configured sensor: the last path segment of the
      endpoint is the sensor id whenever the id has no slash in it. */
  lemma EndpointSensor(ip: string, apiKey: string, sensorId: string)
    requires '/' !in sensorId
    ensures AfterLast(Endpoint(ip, apiKey, sensorId), '/') == sensorId
  {
    var front := "http://" + ip + "/api/" + apiKey + "/sensors";
    assert Endpoint(ip, apiKey, sensorId) == front + ['/'] + sensorId;
    AfterLastStopsAtLast(front, '/', sensorId);
  }

  /** The address `getLightLevel` works with: the cached one when it is
      truthy, otherwise whatever a discovery attempt leaves in the cache. */
  function Resolved(ip: Option<string>, bridgeId: string, discovery: Discovery): (r: Option<string>)
    ensures Known(ip) ==> r == ip
  {
    if Known(ip) then ip else Discovered(ip, discovery, bridgeId)
  }

  /** `getLightLevel`: resolve the bridge address if it is not cached, request
      the sensor's state, and return the lux value of a numeric light level;
      `null` on every failure, with a re-discovery after a failed request. */
  function LightLevel(ip: Option<string>, bridgeId: string, apiKey: string, sensorId: string,
                      discovery: Discovery, fetch: string -> Fetch, rediscovery: Discovery,
                      toLux: real -> real): (r: Read)
    ensures var cur := Resolved(ip, bridgeId, discovery);
            r.reading.Some? <==>
              Known(cur) && fetch(Endpoint(cur.value, apiKey, sensorId)).Answered? &&
              fetch(Endpoint(cur.value, apiKey, sensorId)).lightLevel.Some?
    ensures var cur := Resolved(ip, bridgeId, discovery);
            r.reading.Some? ==> r.reading.value == toLux(fetch(Endpoint(cur.value, apiKey, sensorId)).lightLevel.value)
    ensures var cur := Resolved(ip, bridgeId, discovery);
            r.bridgeIp == if Known(cur) && fetch(Endpoint(cur.value, apiKey, sensorId)).Threw?
                          then Discovered(cur, rediscovery, bridgeId) else cur
  {
    var cur := Resolved(ip, bridgeId, discovery);
    if !Known(cur) then Read(cur, None)
    else match fetch(Endpoint(cur.value, apiKey, sensorId))
      case Answered(Some(level)) => Read(cur, Some(toLux(level)))
      case Answered(None) => Read(cur, None)
      case Threw => Read(Discovered(cur, rediscovery, bridgeId), None)
  }

  /** The module-level state `hueBridgeIp`, shared by every accessory. */
  class BridgeCache {
    var hueBridgeIp: Option<string>

    constructor ()
      ensures hueBridgeIp == None
    {
      hueBridgeIp := None;
    }

    /** `getBridgeIp`: scan the discovery answer, overwriting the cache on each
        match; a failed request or a `null` entry ends the scan, keeping what
        was written so far. */
    method GetBridgeIp(bridgeId: string, response: Discovery)
      modifies this
      ensures hueBridgeIp == Discovered(old(hueBridgeIp), response, bridgeId)
    {
      match response
      case Failed =>
      case Listed(entries) =>
        var i := 0;
        while i < |entries| && entries[i].Record?
          invariant 0 <= i <= |entries|
          invariant Scan(entries[i..], bridgeId, hueBridgeIp) == Scan(entries, bridgeId, old(hueBridgeIp))
        {
          assert entries[i..][1..] == entries[i + 1..];
          if entries[i].id == Some(bridgeId) {
            hueBridgeIp := entries[i].internalIpAddress;
          }
          i := i + 1;
        }
    }

    /** `getLightLevel`, with the re-discovery it starts after a failed request
        applied before it returns. */
    method GetLightLevel(bridgeId: string, apiKey: string, sensorId: string,
                         discovery: Discovery, fetch: string -> Fetch, rediscovery: Discovery,
                         toLux: real -> real) returns (reading: Option<real>)
      modifies this
      ensures Read(hueBridgeIp, reading)
              == LightLevel(old(hueBridgeIp), bridgeId, apiKey, sensorId, discovery, fetch, rediscovery, toLux)
    {
      if !Known(hueBridgeIp) {
        GetBridgeIp(bridgeId, discovery);
      }
      reading := None;
      if Known(hueBridgeIp) {
        var apiEndpoint := Endpoint(hueBridgeIp.value, apiKey, sensorId);
        match fetch(apiEndpoint)
        case Answered(level) =>
          if level.Some? {
            reading := Some(toLux(level.value));
          }
        case Threw =>
          GetBridgeIp(bridgeId, rediscovery);
      }
    }
  }
}
