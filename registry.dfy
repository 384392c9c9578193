/**
 * The bus registry as values: device descriptors, the device system the bus
 * consults, and what attaching and detaching does to the two ordered lists of
 * attached input and output devices. The class `Bus.MidiBus` keeps these lists
 * in fields and its methods are proved against the functions here.
 */
module Registry {

  /** A device descriptor (`MidiDevice.Info`): compared by value, name and identity. */
  datatype Descriptor = Descriptor(name: string, id: nat)

  datatype Direction = Input | Output

  function Other(dir: Direction): Direction {
    if dir == Input then Output else Input
  }

  /**
   * What the device system tells the bus: the descriptors of available input
   * and output devices in enumeration order, how many transmitters and
   * receivers each device offers (0 meaning the direction is unsupported), and
   * whether opening it succeeds.
   */
  datatype DeviceOracle = DeviceOracle(
    availableInputs: seq<Descriptor>,
    availableOutputs: seq<Descriptor>,
    maxTransmitters: Descriptor -> int,
    maxReceivers: Descriptor -> int,
    opens: Descriptor -> bool)
  {
    function Available(dir: Direction): seq<Descriptor> {
      if dir == Input then availableInputs else availableOutputs
    }

    /** An input needs a transmitter, an output a receiver. */
    predicate Supports(dir: Direction, d: Descriptor) {
      if dir == Input then maxTransmitters(d) != 0 else maxReceivers(d) != 0
    }
  }

  /** The attached input and output descriptors, each list in attachment order. */
  datatype Ports = Ports(inputs: seq<Descriptor>, outputs: seq<Descriptor>)
  {
    function Of(dir: Direction): seq<Descriptor> {
      if dir == Input then inputs else outputs
    }

    /** The same ports with the list of one direction replaced. */
    function With(dir: Direction, list: seq<Descriptor>): (p: Ports)
      ensures p.Of(dir) == list && p.Of(Other(dir)) == Of(Other(dir))
    {
      if dir == Input then Ports(list, outputs) else Ports(inputs, list)
    }
  }

  /** The boolean an attach or detach call returns, and the ports afterwards. */
  datatype Change = Change(ok: bool, ports: Ports)

  predicate Distinct<T(==)>(s: seq<T>) {
    forall i, j | 0 <= i < j < |s| :: s[i] != s[j]
  }

  /** `Vector.remove(Object)`: drop the first element equal to `x`, if any. */
  function RemoveFirst<T(==)>(s: seq<T>, x: T): (r: seq<T>)
    ensures x in s ==> |r| == |s| - 1
    ensures x !in s ==> r == s
    ensures forall y | y in r :: y in s
  {
    if s == [] then []
    else if s[0] == x then s[1..]
    else [s[0]] + RemoveFirst(s[1..], x)
  }

  /** Removing the element at `k`, when no earlier element equals it, keeps the others in order. */
  lemma {:induction false} RemoveFirstAt<T>(s: seq<T>, k: nat)
    requires k < |s|
    requires forall j | 0 <= j < k :: s[j] != s[k]
    ensures RemoveFirst(s, s[k]) == s[..k] + s[k + 1..]
  {
    if k > 0 {
      RemoveFirstAt(s[1..], k - 1);
      assert s[1..][..k - 1] + s[1..][k..] == s[1..k] + s[k + 1..];
      assert [s[0]] + s[1..k] == s[..k];
    }
  }

  /** Appending an element not yet present keeps a list without repetitions. */
  lemma DistinctAppend<T>(s: seq<T>, x: T)
    requires Distinct(s) && x !in s
    ensures Distinct(s + [x])
  {
    var l := s + [x];
    forall i, j | 0 <= i < j < |l| ensures l[i] != l[j] {
      if j == |s| {
        assert l[i] == s[i];
      }
    }
  }

  /** Dropping one element of a list without repetitions leaves one without repetitions. */
  lemma DistinctWithout<T>(s: seq<T>, k: nat)
    requires Distinct(s) && k < |s|
    ensures Distinct(s[..k] + s[k + 1..])
  {
    var r := s[..k] + s[k + 1..];
    forall i, j | 0 <= i < j < |r| ensures r[i] != r[j] {
      var i' := if i < k then i else i + 1;
      var j' := if j < k then j else j + 1;
      assert r[i] == s[i'] && r[j] == s[j'];
    }
  }

  /**
   * The index of the first descriptor called `name` (the for-loops over
   * `getName().equals(...)`), or -1 when there is none.
   */
  function FirstNamed(s: seq<Descriptor>, name: string): (k: int)
    ensures -1 <= k < |s|
    ensures 0 <= k ==> s[k].name == name && forall j | 0 <= j < k :: s[j].name != name
    ensures k == -1 ==> forall j | 0 <= j < |s| :: s[j].name != name
  {
    if s == [] then -1
    else if s[0].name == name then 0
    else
      var k := FirstNamed(s[1..], name);
      if k == -1 then -1 else k + 1
  }

  /**
   * `addInput(MidiDevice.Info)` and `addOutput(MidiDevice.Info)`: a device
   * lacking the direction, a descriptor already attached, and a device that
   * fails to open each leave the ports unchanged and report failure; otherwise
   * the descriptor is appended to the list of its direction.
   */
  function Attach(sys: DeviceOracle, dir: Direction, p: Ports, d: Descriptor): (r: Change)
    ensures r.ports.Of(Other(dir)) == p.Of(Other(dir))
    ensures r.ok ==> sys.Supports(dir, d) && d !in p.Of(dir) && r.ports.Of(dir) == p.Of(dir) + [d]
    ensures !r.ok ==> r.ports == p
    ensures d in p.Of(dir) || !sys.Supports(dir, d) ==> !r.ok
    ensures r.ok <==> sys.Supports(dir, d) && d !in p.Of(dir) && sys.opens(d)
  {
    if sys.Supports(dir, d) && d !in p.Of(dir) && sys.opens(d)
    then Change(true, p.With(dir, p.Of(dir) + [d]))
    else Change(false, p)
  }

  /** `addInput(int)` and `addOutput(int)` with each attaching to its own direction. */
  function AttachByIndex(sys: DeviceOracle, dir: Direction, p: Ports, n: int): (r: Change)
    ensures r.ports.Of(Other(dir)) == p.Of(Other(dir))
    ensures r.ok ==> 0 <= n < |sys.Available(dir)| && r.ports.Of(dir) == p.Of(dir) + [sys.Available(dir)[n]]
    ensures !r.ok ==> r.ports == p
    ensures r.ok <==> 0 <= n < |sys.Available(dir)| && Attach(sys, dir, p, sys.Available(dir)[n]).ok
  {
    var devices := sys.Available(dir);
    if n == -1 || n >= |devices| || n < 0 then Change(false, p)
    else Attach(sys, dir, p, devices[n])
  }

  /** `addInput(String)` and `addOutput(String)` with each attaching to its own direction. */
  function AttachByName(sys: DeviceOracle, dir: Direction, p: Ports, name: string): (r: Change)
    ensures r.ports.Of(Other(dir)) == p.Of(Other(dir))
    ensures var k := FirstNamed(sys.Available(dir), name);
      r.ok <==> name != "" && k != -1 && Attach(sys, dir, p, sys.Available(dir)[k]).ok
    ensures var k := FirstNamed(sys.Available(dir), name);
      r.ok ==> 0 <= k && sys.Available(dir)[k].name == name && r.ports.Of(dir) == p.Of(dir) + [sys.Available(dir)[k]]
    ensures !r.ok ==> r.ports == p
  {
    var devices := sys.Available(dir);
    var k := FirstNamed(devices, name);
    if name == "" || k == -1 then Change(false, p)
    else Attach(sys, dir, p, devices[k])
  }

  /** `addInput(int)` and `addOutput(int)` as written: both hand the device to `addInput(Info)`. */
  function AttachByIndexAsWritten(sys: DeviceOracle, dir: Direction, p: Ports, n: int): (r: Change)
    ensures r.ports.outputs == p.outputs
    ensures r.ok ==> 0 <= n < |sys.Available(dir)| && r.ports.inputs == p.inputs + [sys.Available(dir)[n]]
    ensures r.ok <==> 0 <= n < |sys.Available(dir)| && Attach(sys, Input, p, sys.Available(dir)[n]).ok
    ensures !r.ok ==> r.ports == p
  {
    var devices := sys.Available(dir);
    if n == -1 || n >= |devices| || n < 0 then Change(false, p)
    else Attach(sys, Input, p, devices[n])
  }

  /** `addInput(String)` and `addOutput(String)` as written: both hand the device to `addOutput(Info)`. */
  function AttachByNameAsWritten(sys: DeviceOracle, dir: Direction, p: Ports, name: string): (r: Change)
    ensures r.ports.inputs == p.inputs
    ensures var k := FirstNamed(sys.Available(dir), name);
      r.ok <==> name != "" && k != -1 && Attach(sys, Output, p, sys.Available(dir)[k]).ok
    ensures var k := FirstNamed(sys.Available(dir), name);
      r.ok ==> 0 <= k && sys.Available(dir)[k].name == name && r.ports.outputs == p.outputs + [sys.Available(dir)[k]]
    ensures !r.ok ==> r.ports == p
  {
    var devices := sys.Available(dir);
    var k := FirstNamed(devices, name);
    if name == "" || k == -1 then Change(false, p)
    else Attach(sys, Output, p, devices[k])
  }

  /**
   * `removeInput(int)` and `removeOutput(int)`: an index outside the list
   * fails; otherwise the container at that index is removed from the Vector by
   * equality of descriptors.
   */
  function DetachAt(dir: Direction, p: Ports, n: int): (r: Change)
    ensures r.ports.Of(Other(dir)) == p.Of(Other(dir))
    ensures r.ok <==> 0 <= n < |p.Of(dir)|
    ensures r.ok ==> |r.ports.Of(dir)| == |p.Of(dir)| - 1
    ensures !r.ok ==> r.ports == p
  {
    var list := p.Of(dir);
    if 0 <= n < |list| then Change(true, p.With(dir, RemoveFirst(list, list[n])))
    else Change(false, p)
  }

  /** `removeInput(String)` and `removeOutput(String)`: remove the first attached device called `name`. */
  function DetachNamed(dir: Direction, p: Ports, name: string): (r: Change)
    ensures r.ports.Of(Other(dir)) == p.Of(Other(dir))
    ensures r.ok <==> exists i | 0 <= i < |p.Of(dir)| :: p.Of(dir)[i].name == name
    ensures r.ok ==> |r.ports.Of(dir)| == |p.Of(dir)| - 1
    ensures !r.ok ==> r.ports == p
  {
    var list := p.Of(dir);
    var k := FirstNamed(list, name);
    if k == -1 then Change(false, p)
    else Change(true, p.With(dir, RemoveFirst(list, list[k])))
  }

  /**
   * Attaching keeps the attached descriptors of a direction pairwise distinct,
   * changes only the list of that direction, and attaching the same
   * descriptor a second time fails without changing anything.
   */
  lemma AttachKeepsDistinct(sys: DeviceOracle, dir: Direction, p: Ports, d: Descriptor)
    requires Distinct(p.Of(dir))
    ensures var r := Attach(sys, dir, p, d);
      Distinct(r.ports.Of(dir)) && r.ports.Of(Other(dir)) == p.Of(Other(dir)) &&
      Attach(sys, dir, r.ports, d) == Change(false, r.ports)
  {
    var r := Attach(sys, dir, p, d);
    if r.ok {
      DistinctAppend(p.Of(dir), d);
      assert d in r.ports.Of(dir);
    }
  }

  /**
   * Detaching by index removes exactly the element at that index and keeps
   * the others in order, provided the list has no repeated descriptor (which
   * attaching guarantees); an index outside the list changes nothing.
   */
  lemma DetachAtRemovesIndex(dir: Direction, p: Ports, n: int)
    requires Distinct(p.Of(dir))
    ensures var r := DetachAt(dir, p, n);
      r.ok == (0 <= n < |p.Of(dir)|) &&
      r.ports.Of(Other(dir)) == p.Of(Other(dir)) &&
      r.ports.Of(dir) == (if r.ok then p.Of(dir)[..n] + p.Of(dir)[n + 1..] else p.Of(dir)) &&
      Distinct(r.ports.Of(dir))
  {
    var list := p.Of(dir);
    if 0 <= n < |list| {
      RemoveFirstAt(list, n);
      DistinctWithout(list, n);
    }
  }

  /**
   * Detaching by name removes the first attached device with that name and
   * keeps the others in order; with no such device it changes nothing.
   */
  lemma DetachNamedRemovesFirstMatch(dir: Direction, p: Ports, name: string)
    ensures var list := p.Of(dir); var k := FirstNamed(list, name); var r := DetachNamed(dir, p, name);
      r.ok == (k != -1) &&
      r.ports.Of(Other(dir)) == p.Of(Other(dir)) &&
      r.ports.Of(dir) == (if r.ok then list[..k] + list[k + 1..] else list)
  {
    var list := p.Of(dir);
    var k := FirstNamed(list, name);
    if k != -1 {
      forall j | 0 <= j < k ensures list[j] != list[k] {
        assert list[j].name != name;
      }
      RemoveFirstAt(list, k);
    }
  }

  /**
   * Each as-written attach is right in one direction: `addInput(int)` hands an
   * input to `addInput(Info)` and `addOutput(String)` hands an output to
   * `addOutput(Info)`, so there the code as written and the corrected
   * functions agree for every argument.
   */
  lemma AsWrittenRightInOneDirection(sys: DeviceOracle, p: Ports, n: int, name: string)
    ensures AttachByIndexAsWritten(sys, Input, p, n) == AttachByIndex(sys, Input, p, n)
    ensures AttachByNameAsWritten(sys, Output, p, name) == AttachByName(sys, Output, p, name)
  {
  }

  /**
   * As written, `addOutput(int)` can never attach an output device that has no
   * transmitter, whatever the index: the device is checked as an input.
   */
  lemma AddOutputByIndexNeedsTransmitter(sys: DeviceOracle, p: Ports, n: int)
    requires forall d | d in sys.availableOutputs :: sys.maxTransmitters(d) == 0
    ensures !AttachByIndexAsWritten(sys, Output, p, n).ok
  {
    if 0 <= n < |sys.availableOutputs| {
      assert sys.availableOutputs[n] in sys.availableOutputs;
    }
  }

  /**
   * As written, `addInput(String)` can never attach an input device that has
   * no receiver, whatever the name: the device is checked as an output.
   */
  lemma AddInputByNameNeedsReceiver(sys: DeviceOracle, p: Ports, name: string)
    requires forall d | d in sys.availableInputs :: sys.maxReceivers(d) == 0
    ensures !AttachByNameAsWritten(sys, Input, p, name).ok
  {
    var k := FirstNamed(sys.availableInputs, name);
    if k != -1 {
      assert sys.availableInputs[k] in sys.availableInputs;
    }
  }

  /** An output-only device that opens, first among the available outputs. */
  function OutputOnlySystem(d: Descriptor): DeviceOracle {
    DeviceOracle([], [d], _ => 0, _ => 1, _ => true)
  }

  /** An input-only device that opens, first among the available inputs. */
  function InputOnlySystem(d: Descriptor): DeviceOracle {
    DeviceOracle([d], [], _ => 1, _ => 0, _ => true)
  }

  /**
   * `addOutput(0)` on an output-only device: the code as written refuses it
   * (the device has no transmitter), the corrected call attaches it as an output.
   */
  lemma AddOutputByIndexCounterexample(d: Descriptor)
    ensures AttachByIndexAsWritten(OutputOnlySystem(d), Output, Ports([], []), 0) == Change(false, Ports([], []))
    ensures AttachByIndex(OutputOnlySystem(d), Output, Ports([], []), 0) == Change(true, Ports([], [d]))
  {
  }

  /**
   * `addInput(name)` on an input-only device: the code as written refuses it
   * (the device has no receiver), the corrected call attaches it as an input.
   */
  lemma AddInputByNameCounterexample(d: Descriptor)
    requires d.name != ""
    ensures AttachByNameAsWritten(InputOnlySystem(d), Input, Ports([], []), d.name) == Change(false, Ports([], []))
    ensures AttachByName(InputOnlySystem(d), Input, Ports([], []), d.name) == Change(true, Ports([d], []))
  {
    assert FirstNamed([d], d.name) == 0;
  }
}
