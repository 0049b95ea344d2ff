/** Distribution of the configured devices over one task for each network endpoint. */
module NetPartition {
  import opened MachineInts
  import opened Occurrences

  const MAX_NET_DEVICES := 16

  datatype Endpoint = Endpoint(ip: string, port: uint32)

  datatype Device = Device(endpoint: Endpoint, uId: uint16, devType: nat, devId: nat, pointIds: seq<nat>)

  /** One polling task: its endpoint, the number of devices counted for it, and its device array. */
  datatype Task = Task(endpoint: Endpoint, devNum: nat, devices: seq<Device>)

  // ---------------------------------------------------------------- specification

  /** Endpoints in the order of their first device. */
  function Endpoints(devs: seq<Device>): (keys: seq<Endpoint>)
    ensures |keys| <= |devs|
  {
    if devs == [] then []
    else
      var keys := Endpoints(devs[..|devs| - 1]);
      var key := devs[|devs| - 1].endpoint;
      if key in keys then keys else keys + [key]
  }

  /** The devices behind an endpoint, in their original order. */
  function Behind(devs: seq<Device>, key: Endpoint): (r: seq<Device>)
    ensures |r| <= |devs|
  {
    if devs == [] then []
    else
      var r := Behind(devs[..|devs| - 1], key);
      if devs[|devs| - 1].endpoint == key then r + [devs[|devs| - 1]] else r
  }

  lemma StepOf(devs: seq<Device>, i: nat)
    requires i < |devs|
    ensures devs[..i + 1][..i] == devs[..i] && devs[..i + 1][i] == devs[i]
  {
  }

  // ---------------------------------------------------------------- the passes

  method FindEndpoint(threads: array<Endpoint>, threadCount: nat, key: Endpoint) returns (found: bool)
    requires threadCount <= threads.Length
    ensures found <==> key in threads[..threadCount]
  {
    found := false;
    for j := 0 to threadCount
      invariant !found && key !in threads[..j]
    {
      if threads[j].ip == key.ip && threads[j].port == key.port {
        found := true;
        assert threads[..threadCount][j] == key;
        break;
      }
    }
  }

  lemma {:induction false} KeysGrow(devs: seq<Device>, i: nat)
    requires i <= |devs|
    ensures |Endpoints(devs[..i])| <= |Endpoints(devs)|
    decreases |devs| - i
  {
    if i < |devs| {
      KeysGrow(devs, i + 1);
      StepOf(devs, i);
    } else {
      assert devs[..i] == devs;
    }
  }

  method CollectEndpoints(devs: seq<Device>, threads: array<Endpoint>) returns (threadCount: uint8)
    requires |devs| < U8_SPAN && |Endpoints(devs)| <= threads.Length == MAX_NET_DEVICES
    modifies threads
    ensures threadCount == |Endpoints(devs)| && threads[..threadCount] == Endpoints(devs)
  {
    threadCount := 0;
    var i: uint8 := 0;
    while i < |devs|
      invariant i <= |devs| && threadCount <= threads.Length && threads[..threadCount] == Endpoints(devs[..i])
    {
      var current := devs[i].endpoint;
      var found := FindEndpoint(threads, threadCount, current);
      StepOf(devs, i);
      KeysGrow(devs, i + 1);
      if !found {
        threads[threadCount] := current;
        threadCount := threadCount + 1;
      }
      i := i + 1;
    }
    assert devs[..i] == devs;
  }

  method CountBehind(devs: seq<Device>, key: Endpoint) returns (devNum: uint16)
    requires |devs| < U8_SPAN
    ensures devNum == |Behind(devs, key)|
  {
    devNum := 0;
    var i: uint8 := 0;
    while i < |devs|
      invariant i <= |devs| && devNum == |Behind(devs[..i], key)|
    {
      StepOf(devs, i);
      if devs[i].endpoint == key {
        devNum := devNum + 1;
      }
      i := i + 1;
    }
    assert devs[..i] == devs;
  }

  lemma {:induction false} BehindGrows(devs: seq<Device>, key: Endpoint, i: nat)
    requires i <= |devs|
    ensures |Behind(devs[..i], key)| <= |Behind(devs, key)|
    decreases |devs| - i
  {
    if i < |devs| {
      BehindGrows(devs, key, i + 1);
      StepOf(devs, i);
    } else {
      assert devs[..i] == devs;
    }
  }

  /** Fills an array of the counted size; the fill index ends exactly at its length. */
  method FillBehind(devs: seq<Device>, key: Endpoint, arr: array<Device>) returns (devIdx: uint8)
    requires |devs| < U8_SPAN && arr.Length == |Behind(devs, key)|
    modifies arr
    ensures devIdx == arr.Length && arr[..] == Behind(devs, key)
  {
    devIdx := 0;
    var i: uint8 := 0;
    while i < |devs|
      invariant i <= |devs| && devIdx <= arr.Length && arr[..devIdx] == Behind(devs[..i], key)
    {
      StepOf(devs, i);
      BehindGrows(devs, key, i + 1);
      if devs[i].endpoint == key {
        arr[devIdx] := devs[i];
        devIdx := devIdx + 1;
      }
      i := i + 1;
    }
    assert devs[..i] == devs;
  }

  /** One task for each endpoint, in first-occurrence order, with the endpoint's devices in input order. */
  ghost predicate IsPartition(devs: seq<Device>, tasks: seq<Task>) {
    && |tasks| == |Endpoints(devs)|
    && forall g :: 0 <= g < |tasks| ==>
         var key := Endpoints(devs)[g];
         tasks[g] == Task(key, |Behind(devs, key)|, Behind(devs, key))
  }

  method InitNetUartModeParseCfg(devs: seq<Device>) returns (tasks: seq<Task>)
    requires |devs| < U8_SPAN && |Endpoints(devs)| <= MAX_NET_DEVICES
    ensures IsPartition(devs, tasks)
  {
    var blank := Endpoint("", 0);
    var threads := new Endpoint[MAX_NET_DEVICES](_ => blank);
    var taskCount := CollectEndpoints(devs, threads);
    tasks := [];
    var keys := threads[..taskCount];
    for idx := 0 to taskCount
      invariant |tasks| == idx
      invariant forall g :: 0 <= g < idx ==> tasks[g] == Task(keys[g], |Behind(devs, keys[g])|, Behind(devs, keys[g]))
    {
      var devNum := CountBehind(devs, keys[idx]);
      var devices := new Device[devNum](_ => Device(blank, 0, 0, 0, []));
      var devIdx := FillBehind(devs, keys[idx], devices);
      tasks := tasks + [Task(keys[idx], devNum, devices[..devIdx])];
    }
  }

  // ---------------------------------------------------------------- what the partition promises

  lemma {:induction false} EndpointsAreDistinct(devs: seq<Device>)
    ensures forall g, h :: 0 <= g < h < |Endpoints(devs)| ==> Endpoints(devs)[g] != Endpoints(devs)[h]
  {
    if devs != [] {
      EndpointsAreDistinct(devs[..|devs| - 1]);
    }
  }

  lemma {:induction false} EndpointIffDevice(devs: seq<Device>, key: Endpoint)
    ensures key in Endpoints(devs) <==> exists d :: d in devs && d.endpoint == key
  {
    if devs != [] {
      var before, last := devs[..|devs| - 1], devs[|devs| - 1];
      EndpointIffDevice(before, key);
      assert devs == before + [last];
      assert last in devs;
      if exists d :: d in before && d.endpoint == key {
        var d :| d in before && d.endpoint == key;
        assert d in devs;
      }
      if exists d :: d in devs && d.endpoint == key {
        var d :| d in devs && d.endpoint == key;
        assert d in before || d == last;
      }
    }
  }

  /** The first device behind `later` stands at `j`, after a device behind `earlier` at `i`. */
  ghost predicate StandInOrder(devs: seq<Device>, earlier: Endpoint, later: Endpoint, i: int, j: int) {
    && 0 <= i < j < |devs| && devs[i].endpoint == earlier && devs[j].endpoint == later
    && forall k :: 0 <= k < j ==> devs[k].endpoint != later
  }

  /** Endpoints come in the order of their first devices. */
  lemma {:induction false} EndpointsInOrder(devs: seq<Device>, g: nat, h: nat)
    requires g < h < |Endpoints(devs)|
    ensures exists i, j :: StandInOrder(devs, Endpoints(devs)[g], Endpoints(devs)[h], i, j)
  {
    var n := |devs| - 1;
    var before, keys := devs[..n], Endpoints(devs);
    if h < |Endpoints(before)| {
      EndpointsInOrder(before, g, h);
      var i, j :| StandInOrder(before, keys[g], keys[h], i, j);
      assert StandInOrder(devs, keys[g], keys[h], i, j);
    } else {
      EndpointIffDevice(before, keys[g]);
      EndpointIffDevice(before, keys[h]);
      var d :| d in before && d.endpoint == keys[g];
      var i :| 0 <= i < n && before[i] == d;
      forall k | 0 <= k < n ensures devs[k].endpoint != keys[h] {
        assert before[k] in before;
      }
      assert StandInOrder(devs, keys[g], keys[h], i, n);
    }
  }

  /** Where each device of a group stands in the input. */
  function Places(devs: seq<Device>, key: Endpoint): (r: seq<nat>)
    ensures |r| == |Behind(devs, key)|
    ensures forall m :: 0 <= m < |r| ==> r[m] < |devs| && devs[r[m]] == Behind(devs, key)[m]
  {
    if devs == [] then []
    else
      var r := Places(devs[..|devs| - 1], key);
      if devs[|devs| - 1].endpoint == key then r + [|devs| - 1] else r
  }

  ghost predicate Climbs(r: seq<nat>) {
    forall m, m' :: 0 <= m < m' < |r| ==> r[m] < r[m']
  }

  lemma {:induction false} PlacesClimb(devs: seq<Device>, key: Endpoint)
    ensures Climbs(Places(devs, key))
  {
    if devs != [] {
      PlacesClimb(devs[..|devs| - 1], key);
    }
  }

  lemma {:induction false} PlaceIffKey(devs: seq<Device>, key: Endpoint, i: nat)
    ensures i in Places(devs, key) <==> i < |devs| && devs[i].endpoint == key
  {
    if devs != [] {
      PlaceIffKey(devs[..|devs| - 1], key, i);
    }
  }

  /** Stability: a group lists, in increasing order, exactly the places of its endpoint's devices. */
  lemma GroupIsStable(devs: seq<Device>, key: Endpoint)
    ensures var r := Places(devs, key);
      && Climbs(r)
      && (forall i: nat :: i in r <==> i < |devs| && devs[i].endpoint == key)
  {
    PlacesClimb(devs, key);
    forall i: nat ensures i in Places(devs, key) <==> i < |devs| && devs[i].endpoint == key {
      PlaceIffKey(devs, key, i);
    }
  }

  lemma {:induction false} BehindHasKey(devs: seq<Device>, key: Endpoint, d: Device)
    ensures d in Behind(devs, key) <==> d in devs && d.endpoint == key
  {
    if devs != [] {
      BehindHasKey(devs[..|devs| - 1], key, d);
      assert devs == devs[..|devs| - 1] + [devs[|devs| - 1]];
    }
  }

  /** Each device is in the task of its endpoint and in no other. */
  lemma DeviceHasOneTask(devs: seq<Device>, tasks: seq<Task>, d: Device)
    requires IsPartition(devs, tasks) && d in devs
    ensures exists g :: 0 <= g < |tasks| && tasks[g].endpoint == d.endpoint && d in tasks[g].devices
                        && forall h :: 0 <= h < |tasks| && d in tasks[h].devices ==> h == g
  {
    EndpointIffDevice(devs, d.endpoint);
    var g :| 0 <= g < |tasks| && Endpoints(devs)[g] == d.endpoint;
    BehindHasKey(devs, d.endpoint, d);
    forall h | 0 <= h < |tasks| && d in tasks[h].devices ensures h == g {
      BehindHasKey(devs, Endpoints(devs)[h], d);
      EndpointsAreDistinct(devs);
    }
    assert tasks[g].endpoint == d.endpoint && d in tasks[g].devices;
  }

  /** All groups one after the other. */
  function Regrouped(devs: seq<Device>, keys: seq<Endpoint>): seq<Device> {
    if keys == [] then [] else Regrouped(devs, keys[..|keys| - 1]) + Behind(devs, keys[|keys| - 1])
  }

  lemma {:induction false} CountBehindKey(devs: seq<Device>, key: Endpoint, d: Device)
    ensures Count(Behind(devs, key), d) == if d.endpoint == key then Count(devs, d) else 0
  {
    if devs != [] {
      var before, last := devs[..|devs| - 1], devs[|devs| - 1];
      CountBehindKey(before, key, d);
      CountAdd(Behind(before, key), [last], d);
    }
  }

  lemma {:induction false} CountRegrouped(devs: seq<Device>, keys: seq<Endpoint>, d: Device)
    requires forall g, h :: 0 <= g < h < |keys| ==> keys[g] != keys[h]
    ensures Count(Regrouped(devs, keys), d) == if d.endpoint in keys then Count(devs, d) else 0
  {
    if keys != [] {
      var before, key := keys[..|keys| - 1], keys[|keys| - 1];
      CountRegrouped(devs, before, d);
      CountBehindKey(devs, key, d);
      CountAdd(Regrouped(devs, before), Behind(devs, key), d);
      assert keys == before + [key];
    }
  }

  /** Conservation: the groups together hold every configured device exactly as often as the input does. */
  lemma NoDeviceIsLost(devs: seq<Device>)
    ensures multiset(Regrouped(devs, Endpoints(devs))) == multiset(devs)
  {
    var regrouped := Regrouped(devs, Endpoints(devs));
    EndpointsAreDistinct(devs);
    forall d ensures multiset(regrouped)[d] == multiset(devs)[d] {
      CountRegrouped(devs, Endpoints(devs), d);
      EndpointIffDevice(devs, d.endpoint);
      CountIsMultiplicity(regrouped, d);
      CountIsMultiplicity(devs, d);
    }
  }
}
