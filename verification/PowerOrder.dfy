/** How the device manager passes a power state on: to its hosts, their devices and the devices'
    nodes, in one order to wake and in the other to suspend. */
module PowerOrder {
  import opened Basics

  // A node has a power token or none; a host has its service or has lost it.
  type Node = Option<nat>
  type Device = seq<Node>
  type Host = Option<seq<Device>>

  const HDF_SUCCESS: int := 0
  const HDF_FAILURE: int := -1
  const INVALID_OBJECT: int := -4
  const INVALID_PARAM: int := -3

  // ---------- the order of the visits ----------

  function OfNode(node: Node): seq<nat> {
    if node.None? then [] else [node.value]
  }

  function NodesForward(nodes: seq<Node>): seq<nat> {
    if nodes == [] then [] else OfNode(nodes[0]) + NodesForward(nodes[1..])
  }

  function NodesBackward(nodes: seq<Node>): seq<nat> {
    if nodes == [] then [] else NodesBackward(nodes[1..]) + OfNode(nodes[0])
  }

  function OfDevice(wake: bool, device: Device): seq<nat> {
    if wake then NodesForward(device) else NodesBackward(device)
  }

  // Devices are taken from the back to wake.
  function DevicesForward(wake: bool, devices: seq<Device>): seq<nat> {
    if devices == [] then [] else OfDevice(wake, devices[0]) + DevicesForward(wake, devices[1..])
  }

  function DevicesBackward(wake: bool, devices: seq<Device>): seq<nat> {
    if devices == [] then [] else DevicesBackward(wake, devices[1..]) + OfDevice(wake, devices[0])
  }

  function OfHost(wake: bool, host: Host): seq<nat> {
    if host.None? then []
    else if wake then DevicesBackward(wake, host.value) else DevicesForward(wake, host.value)
  }

  function HostsForward(wake: bool, hosts: seq<Host>): seq<nat> {
    if hosts == [] then [] else OfHost(wake, hosts[0]) + HostsForward(wake, hosts[1..])
  }

  function HostsBackward(wake: bool, hosts: seq<Host>): seq<nat> {
    if hosts == [] then [] else HostsBackward(wake, hosts[1..]) + OfHost(wake, hosts[0])
  }

  function Visits(wake: bool, hosts: seq<Host>): seq<nat> {
    if wake then HostsForward(wake, hosts) else HostsBackward(wake, hosts)
  }

  // ---------- one order is the reverse of the other ----------

  function Reverse<T>(s: seq<T>): (r: seq<T>)
    ensures |r| == |s| && forall i | 0 <= i < |s| :: r[i] == s[|s| - 1 - i]
  {
    seq(|s|, i requires 0 <= i < |s| => s[|s| - 1 - i])
  }

  lemma ReverseOfTwo<T>(a: seq<T>, b: seq<T>)
    ensures Reverse(a + b) == Reverse(b) + Reverse(a)
  {
  }

  lemma {:induction false} NodesReverse(nodes: seq<Node>)
    ensures NodesBackward(nodes) == Reverse(NodesForward(nodes))
  {
    if nodes != [] {
      NodesReverse(nodes[1..]);
      ReverseOfTwo(OfNode(nodes[0]), NodesForward(nodes[1..]));
      assert Reverse(OfNode(nodes[0])) == OfNode(nodes[0]);
    }
  }

  lemma {:induction false} DevicesReverse(devices: seq<Device>)
    ensures DevicesForward(false, devices) == Reverse(DevicesBackward(true, devices))
  {
    if devices != [] {
      NodesReverse(devices[0]);
      DevicesReverse(devices[1..]);
      ReverseOfTwo(DevicesBackward(true, devices[1..]), OfDevice(true, devices[0]));
    }
  }

  lemma {:induction false} HostsReverse(hosts: seq<Host>)
    ensures HostsBackward(false, hosts) == Reverse(HostsForward(true, hosts))
  {
    if hosts != [] {
      if hosts[0].Some? { DevicesReverse(hosts[0].value); }
      HostsReverse(hosts[1..]);
      ReverseOfTwo(OfHost(true, hosts[0]), HostsForward(true, hosts[1..]));
      assert hosts[0].None? ==> Reverse(OfHost(true, hosts[0])) == [];
    }
  }

  /** Waking visits the nodes in exactly the reverse of the order in which suspending does. */
  lemma WakeReversesSuspend(hosts: seq<Host>)
    ensures Visits(true, hosts) == Reverse(Visits(false, hosts))
    ensures Visits(false, hosts) == Reverse(Visits(true, hosts))
  {
    HostsReverse(hosts);
    assert Reverse(Reverse(HostsForward(true, hosts))) == HostsForward(true, hosts);
  }

  // ---------- which order is which ----------

  lemma Assoc<T>(a: seq<T>, b: seq<T>, c: seq<T>)
    ensures (a + b) + c == a + (b + c)
  {
  }

  lemma {:induction false} HostsOfTwo(wake: bool, a: seq<Host>, b: seq<Host>)
    ensures HostsForward(wake, a + b) == HostsForward(wake, a) + HostsForward(wake, b)
    ensures HostsBackward(wake, a + b) == HostsBackward(wake, b) + HostsBackward(wake, a)
  {
    hide OfHost;
    if a == [] {
      assert a + b == b;
    } else {
      var first := OfHost(wake, a[0]);
      assert (a + b)[0] == a[0] && (a + b)[1..] == a[1..] + b;
      HostsOfTwo(wake, a[1..], b);
      Assoc(first, HostsForward(wake, a[1..]), HostsForward(wake, b));
      Assoc(HostsBackward(wake, b), HostsBackward(wake, a[1..]), first);
    }
  }

  lemma {:induction false} DevicesOfTwo(wake: bool, a: seq<Device>, b: seq<Device>)
    ensures DevicesForward(wake, a + b) == DevicesForward(wake, a) + DevicesForward(wake, b)
    ensures DevicesBackward(wake, a + b) == DevicesBackward(wake, b) + DevicesBackward(wake, a)
  {
    hide OfDevice;
    if a == [] {
      assert a + b == b;
    } else {
      var first := OfDevice(wake, a[0]);
      assert (a + b)[0] == a[0] && (a + b)[1..] == a[1..] + b;
      DevicesOfTwo(wake, a[1..], b);
      Assoc(first, DevicesForward(wake, a[1..]), DevicesForward(wake, b));
      Assoc(DevicesBackward(wake, b), DevicesBackward(wake, a[1..]), first);
    }
  }

  lemma {:induction false} NodesOfTwo(a: seq<Node>, b: seq<Node>)
    ensures NodesForward(a + b) == NodesForward(a) + NodesForward(b)
    ensures NodesBackward(a + b) == NodesBackward(b) + NodesBackward(a)
  {
    hide OfNode;
    if a == [] {
      assert a + b == b;
    } else {
      var first := OfNode(a[0]);
      assert (a + b)[0] == a[0] && (a + b)[1..] == a[1..] + b;
      NodesOfTwo(a[1..], b);
      Assoc(first, NodesForward(a[1..]), NodesForward(b));
      Assoc(NodesBackward(b), NodesBackward(a[1..]), first);
    }
  }

  lemma OneHost(wake: bool, host: Host)
    ensures Visits(wake, [host]) == OfHost(wake, host)
  {
    var hosts: seq<Host> := [host];
    assert hosts[1..] == [] && HostsForward(wake, []) == [] == HostsBackward(wake, []);
    hide OfHost;
    assert HostsForward(wake, hosts) == OfHost(wake, host) + HostsForward(wake, []);
    assert HostsBackward(wake, hosts) == HostsBackward(wake, []) + OfHost(wake, host);
  }

  lemma OneDevice(wake: bool, device: Device)
    ensures Visits(wake, [Some([device])]) == OfDevice(wake, device)
  {
    OneHost(wake, Some([device]));
    var devices: seq<Device> := [device];
    assert devices[1..] == [] && DevicesForward(wake, []) == [] == DevicesBackward(wake, []);
    hide OfDevice, Visits;
    assert DevicesForward(wake, devices) == OfDevice(wake, device) + DevicesForward(wake, []);
    assert DevicesBackward(wake, devices) == DevicesBackward(wake, []) + OfDevice(wake, device);
  }

  /** Waking takes the hosts of the list from the front, the devices of a host from the back, and the nodes of a
      device from the front; suspending the other way round on each level.  With VisitsOfOne this fixes the visits. */
  lemma OrderOfTwo(hosts: (seq<Host>, seq<Host>), devices: (seq<Device>, seq<Device>), nodes: (Device, Device))
    ensures Visits(true, hosts.0 + hosts.1) == Visits(true, hosts.0) + Visits(true, hosts.1)
    ensures Visits(false, hosts.0 + hosts.1) == Visits(false, hosts.1) + Visits(false, hosts.0)
    ensures var (a, b) := devices;
      && Visits(true, [Some(a + b)]) == Visits(true, [Some(b)]) + Visits(true, [Some(a)])
      && Visits(false, [Some(a + b)]) == Visits(false, [Some(a)]) + Visits(false, [Some(b)])
    ensures var (a, b) := nodes;
      && Visits(true, [Some([a + b])]) == Visits(true, [Some([a])]) + Visits(true, [Some([b])])
      && Visits(false, [Some([a + b])]) == Visits(false, [Some([b])]) + Visits(false, [Some([a])])
  {
    HostsOrder(hosts.0, hosts.1);
    DevicesOrder(devices.0, devices.1);
    NodesOrder(nodes.0, nodes.1);
    hide Visits;
  }

  lemma HostsOrder(a: seq<Host>, b: seq<Host>)
    ensures Visits(true, a + b) == Visits(true, a) + Visits(true, b)
    ensures Visits(false, a + b) == Visits(false, b) + Visits(false, a)
  {
    hide HostsForward, HostsBackward;
    HostsOfTwo(true, a, b);
    HostsOfTwo(false, a, b);
  }

  lemma DevicesOrder(a: seq<Device>, b: seq<Device>)
    ensures Visits(true, [Some(a + b)]) == Visits(true, [Some(b)]) + Visits(true, [Some(a)])
    ensures Visits(false, [Some(a + b)]) == Visits(false, [Some(a)]) + Visits(false, [Some(b)])
  {
    hide DevicesForward, DevicesBackward, Visits;
    forall wake: bool ensures Visits(wake, [Some(a + b)]) == OfHost(wake, Some(a + b))
      ensures Visits(wake, [Some(a)]) == OfHost(wake, Some(a)) && Visits(wake, [Some(b)]) == OfHost(wake, Some(b))
    {
      OneHost(wake, Some(a + b));
      OneHost(wake, Some(a));
      OneHost(wake, Some(b));
    }
    DevicesOfTwo(true, a, b);
    DevicesOfTwo(false, a, b);
  }

  lemma NodesOrder(a: Device, b: Device)
    ensures Visits(true, [Some([a + b])]) == Visits(true, [Some([a])]) + Visits(true, [Some([b])])
    ensures Visits(false, [Some([a + b])]) == Visits(false, [Some([b])]) + Visits(false, [Some([a])])
  {
    hide NodesForward, NodesBackward, Visits;
    forall wake: bool, d: Device | d in {a, b, a + b} ensures Visits(wake, [Some([d])]) == OfDevice(wake, d) {
      OneDevice(wake, d);
    }
    NodesOfTwo(a, b);
  }

  // A node with a token is visited once; a node without one, and a host that has lost its service, not at all.
  lemma VisitsOfOne(wake: bool, token: nat)
    ensures Visits(wake, [Some([[Some(token)]])]) == [token] && Visits(wake, [Some([[None]])]) == []
    ensures Visits(wake, [Some([[]])]) == [] && Visits(wake, [Some([])]) == []
    ensures Visits(wake, [None]) == [] && Visits(wake, []) == []
  {
    OneDevice(wake, [Some(token)]);
    OneDevice(wake, [None]);
    OneDevice(wake, []);
    OneHost(wake, Some([]));
    OneHost(wake, None);
    var full, empty: seq<Node> := [Some(token)], [None];
    assert full[1..] == [] && empty[1..] == [];
  }

  // ---------- every node with a token is visited ----------

  function Tokens(hosts: seq<Host>): multiset<nat> {
    if hosts == [] then multiset{} else OfDevices(if hosts[0].None? then [] else hosts[0].value) + Tokens(hosts[1..])
  }

  function OfDevices(devices: seq<Device>): multiset<nat> {
    if devices == [] then multiset{} else OfNodes(devices[0]) + OfDevices(devices[1..])
  }

  function OfNodes(nodes: seq<Node>): multiset<nat> {
    if nodes == [] then multiset{}
    else (if nodes[0].None? then multiset{} else multiset{nodes[0].value}) + OfNodes(nodes[1..])
  }

  lemma {:induction false} NodesComplete(nodes: seq<Node>)
    ensures multiset(NodesForward(nodes)) == OfNodes(nodes) == multiset(NodesBackward(nodes))
  {
    if nodes != [] { NodesComplete(nodes[1..]); }
  }

  lemma {:induction false} DevicesComplete(wake: bool, devices: seq<Device>)
    ensures multiset(DevicesForward(wake, devices)) == OfDevices(devices) == multiset(DevicesBackward(wake, devices))
  {
    if devices != [] {
      NodesComplete(devices[0]);
      DevicesComplete(wake, devices[1..]);
    }
  }

  /** Each token of each host that has its service is visited, as often as it occurs, and nothing else. */
  lemma {:induction false} VisitsComplete(wake: bool, hosts: seq<Host>)
    ensures multiset(Visits(wake, hosts)) == Tokens(hosts)
  {
    if hosts != [] {
      if hosts[0].Some? { DevicesComplete(wake, hosts[0].value); }
      VisitsComplete(wake, hosts[1..]);
    }
  }

  // ---------- the walks ----------

  lemma NodesMore(nodes: seq<Node>, i: nat)
    requires i < |nodes|
    ensures NodesForward(nodes[..i + 1]) == NodesForward(nodes[..i]) + OfNode(nodes[i])
    decreases i
  {
    if i == 0 {
      assert nodes[..1] == [nodes[0]] && [nodes[0]][1..] == [];
    } else {
      NodesMore(nodes[1..], i - 1);
      assert nodes[..i + 1][1..] == nodes[1..][..i] && nodes[..i][1..] == nodes[1..][..i - 1];
    }
  }

  lemma DevicesMore(wake: bool, devices: seq<Device>, i: nat)
    requires i < |devices|
    ensures DevicesForward(wake, devices[..i + 1]) == DevicesForward(wake, devices[..i]) + OfDevice(wake, devices[i])
    decreases i
  {
    hide OfDevice;
    if i == 0 {
      assert devices[..1] == [devices[0]] && [devices[0]][1..] == [];
    } else {
      DevicesMore(wake, devices[1..], i - 1);
      assert devices[..i + 1][1..] == devices[1..][..i] && devices[..i][1..] == devices[1..][..i - 1];
    }
  }

  lemma HostsMore(wake: bool, hosts: seq<Host>, i: nat)
    requires i < |hosts|
    ensures HostsForward(wake, hosts[..i + 1]) == HostsForward(wake, hosts[..i]) + OfHost(wake, hosts[i])
    decreases i
  {
    hide OfHost;
    if i == 0 {
      assert hosts[..1] == [hosts[0]] && [hosts[0]][1..] == [];
    } else {
      HostsMore(wake, hosts[1..], i - 1);
      assert hosts[..i + 1][1..] == hosts[1..][..i] && hosts[..i][1..] == hosts[1..][..i - 1];
    }
  }

  lemma NoDevices(wake: bool)
    ensures OfHost(wake, None) == []
  {
  }

  class PowerWalk {
    const fails: nat -> bool // does the attempt with this number fail?
    var visited: seq<nat>    // the tokens of all attempts so far

    constructor (fails: nat -> bool)
      ensures this.fails == fails && visited == []
    {
      this.fails := fails;
      visited := [];
    }

    // No attempt from some number on has failed.
    ghost predicate NoneFailed(from: nat)
      reads this
    {
      forall i | from <= i < |visited| :: !fails(i)
    }

    // The walk: these tokens, and failure exactly when one of the attempts failed.
    twostate predicate Walked(result: int, tokens: seq<nat>)
      reads this
    {
      && visited == old(visited) + tokens
      && (result == HDF_SUCCESS || result == HDF_FAILURE)
      && (result == HDF_SUCCESS <==> NoneFailed(|old(visited)|))
    }

    method PowerStateChange(token: nat) returns (ok: bool)
      modifies this
      ensures visited == old(visited) + [token] && ok == !fails(|old(visited)|)
    {
      ok := !fails(|visited|);
      visited := visited + [token];
    }

    method DispatchPowerState(device: Device, wake: bool) returns (result: int)
      modifies this
      ensures Walked(result, OfDevice(wake, device))
    {
      result := HDF_SUCCESS;
      if wake {
        var i := 0;
        while i < |device|
          invariant 0 <= i <= |device|
          invariant Walked(result, NodesForward(device[..i]))
        {
          NodesMore(device, i);
          if device[i].Some? {
            var ok := PowerStateChange(device[i].value);
            if !ok { result := HDF_FAILURE; }
          }
          i := i + 1;
        }
        assert device[..i] == device;
      } else {
        var i := |device|;
        while i > 0
          invariant 0 <= i <= |device|
          invariant Walked(result, NodesBackward(device[i..]))
        {
          i := i - 1;
          assert device[i..][1..] == device[i + 1..];
          if device[i].Some? {
            var ok := PowerStateChange(device[i].value);
            if !ok { result := HDF_FAILURE; }
          }
        }
        assert device[0..] == device;
      }
    }

    method PmNotify(devices: seq<Device>, valid: bool, wake: bool) returns (result: int)
      modifies this
      ensures !valid ==> result == INVALID_PARAM && visited == old(visited)
      ensures valid ==> Walked(result, OfHost(wake, Some(devices)))
    {
      hide OfDevice;
      result := HDF_SUCCESS;
      if !valid { return INVALID_PARAM; }
      if wake {
        var i := |devices|;
        while i > 0
          invariant 0 <= i <= |devices|
          invariant Walked(result, DevicesBackward(wake, devices[i..]))
        {
          i := i - 1;
          assert devices[i..][1..] == devices[i + 1..];
          var r := DispatchPowerState(devices[i], wake);
          if r != HDF_SUCCESS { result := HDF_FAILURE; }
        }
        assert devices[0..] == devices;
      } else {
        var i := 0;
        while i < |devices|
          invariant 0 <= i <= |devices|
          invariant Walked(result, DevicesForward(wake, devices[..i]))
        {
          DevicesMore(wake, devices, i);
          var r := DispatchPowerState(devices[i], wake);
          if r != HDF_SUCCESS { result := HDF_FAILURE; }
          i := i + 1;
        }
        assert devices[..i] == devices;
      }
    }

    method WakeHosts(hosts: seq<Host>) returns (result: int)
      modifies this
      ensures Walked(result, HostsForward(true, hosts))
    {
      hide OfHost, DevicesForward, DevicesBackward;
      result := HDF_SUCCESS;
      var i := 0;
      while i < |hosts|
        invariant 0 <= i <= |hosts|
        invariant Walked(result, HostsForward(true, hosts[..i]))
      {
        HostsMore(true, hosts, i);
        if hosts[i].Some? {
          var r := PmNotify(hosts[i].value, true, true);
          if r != HDF_SUCCESS { result := HDF_FAILURE; }
        } else {
          NoDevices(true);
        }
        i := i + 1;
      }
      assert hosts[..i] == hosts;
    }

    method SuspendHosts(hosts: seq<Host>) returns (result: int)
      modifies this
      ensures Walked(result, HostsBackward(false, hosts))
    {
      hide OfHost, DevicesForward, DevicesBackward;
      result := HDF_SUCCESS;
      var i := |hosts|;
      while i > 0
        invariant 0 <= i <= |hosts|
        invariant Walked(result, HostsBackward(false, hosts[i..]))
      {
        i := i - 1;
        assert hosts[i..][1..] == hosts[i + 1..];
        if hosts[i].Some? {
          var r := PmNotify(hosts[i].value, true, false);
          if r != HDF_SUCCESS { result := HDF_FAILURE; }
        } else {
          NoDevices(false);
        }
      }
      assert hosts[0..] == hosts;
    }

    /** All hosts: the visits of the state, and failure if and only if some attempt failed. */
    method PowerStateChangeOfHosts(hosts: Option<seq<Host>>, valid: bool, wake: bool) returns (result: int)
      modifies this
      ensures hosts.None? ==> result == INVALID_OBJECT && visited == old(visited)
      ensures hosts.Some? && !valid ==> result == INVALID_PARAM && visited == old(visited)
      ensures hosts.Some? && valid ==> Walked(result, Visits(wake, hosts.value))
    {
      hide HostsForward, HostsBackward, Walked;
      if hosts.None? { return INVALID_OBJECT; }
      if !valid { return INVALID_PARAM; }
      if wake {
        result := WakeHosts(hosts.value);
      } else {
        result := SuspendHosts(hosts.value);
      }
    }
  }
}
