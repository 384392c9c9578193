/**
 * The bus itself: a class whose fields are the bus name, the attached input
 * and output devices, the listeners and the states of the ten host methods,
 * with the operations of `MidiBus` that read or change them. Each method is
 * proved against the specification functions of `Registry` and `Dispatch`.
 */
module Bus {
  import opened Wrappers
  import opened MidiBytes
  import opened Registry
  import opened Dispatch
  import opened Decimal

  /** A message handed to the receiver of one attached output. */
  datatype Delivery = Delivery(output: Descriptor, message: Message)

  /**
   * The message `sendNoteOn`, `sendNoteOff` and `sendControllerChange` build:
   * the command with the channel clamped to 0..15 and both data values clamped
   * to 0..127. Whatever the arguments, the fields are in range, and arguments
   * already in range are sent as they are.
   */
  function Clamped(command: int, channel: int, data1: int, data2: int): (m: Message)
    requires IsTwoDataByteCommand(command)
    ensures |m| == 3 && Command(m[0]) == command
    ensures 0 <= Channel(m[0]) < 16 && m[1] < 128 && m[2] < 128
    ensures 0 <= channel < 16 ==> Channel(m[0]) == channel
    ensures 0 <= data1 < 128 ==> m[1] == data1
    ensures 0 <= data2 < 128 ==> m[2] == data2
  {
    ChannelVoice(command, Constrain(channel, 0, 15), Constrain(data1, 0, 127), Constrain(data2, 0, 127))
  }

  /**
   * What a bus sends, a bus receiving it hands its SimpleMidiListeners as the
   * same call with the clamped arguments.
   */
  lemma SentMessagesReadBack(channel: int, data1: int, data2: int)
    ensures var (c, d1, d2) := (Constrain(channel, 0, 15), Constrain(data1, 0, 127), Constrain(data2, 0, 127));
      SimpleCall(Clamped(NOTE_ON, channel, data1, data2)) == Some(NoteOn(c, d1, d2)) &&
      SimpleCall(Clamped(NOTE_OFF, channel, data1, data2)) == Some(NoteOff(c, d1, d2)) &&
      SimpleCall(Clamped(CONTROL_CHANGE, channel, data1, data2)) == Some(ControllerChange(c, d1, d2))
  {
    SimpleCallDecodesChannelVoice(Constrain(channel, 0, 15), Constrain(data1, 0, 127), Constrain(data2, 0, 127));
  }

  /** The text `toString` returns: the name, then the three counts in decimal. */
  function Summary(name: string, inputs: nat, outputs: nat, listeners: nat): (r: string)
    ensures |r| > 9 + |name| && r[..9] == "MidiBus: " && r[9..9 + |name|] == name && r[|r| - 1] == ']'
  {
    "MidiBus: " + name + " [" +
    (DecimalString(inputs) + (" input(s), " +
    (DecimalString(outputs) + (" output(s), " +
    (DecimalString(listeners) + " listener(s)]")))))
  }

  lemma StripPrefix(p: string, x: string, y: string)
    requires p + x == p + y
    ensures x == y
  {
    assert x == (p + x)[|p|..];
  }

  /** For a given name, the summary tells the three counts apart: it determines each of them. */
  lemma SummaryDeterminesCounts(name: string, i: nat, o: nat, l: nat, i': nat, o': nat, l': nat)
    requires Summary(name, i, o, l) == Summary(name, i', o', l')
    ensures i == i' && o == o' && l == l'
  {
    var tail := " listener(s)]";
    var afterO, afterO' := " output(s), " + (DecimalString(l) + tail), " output(s), " + (DecimalString(l') + tail);
    var afterI, afterI' := " input(s), " + (DecimalString(o) + afterO), " input(s), " + (DecimalString(o') + afterO');
    StripPrefix("MidiBus: " + name + " [", DecimalString(i) + afterI, DecimalString(i') + afterI');
    DigitsBeforeSpace(i, i', afterI, afterI');
    StripPrefix(" input(s), ", DecimalString(o) + afterO, DecimalString(o') + afterO');
    DigitsBeforeSpace(o, o', afterO, afterO');
    StripPrefix(" output(s), ", DecimalString(l) + tail, DecimalString(l') + tail);
    DigitsBeforeSpace(l, l', tail, tail);
  }

  class MidiBus {
    /** `bus_name`. */
    var name: string
    /** The descriptors of `input_devices`, in attachment order. */
    var inputs: seq<Descriptor>
    /** The descriptors of `output_devices`, in attachment order. */
    var outputs: seq<Descriptor>
    /** `listeners`, in registration order. */
    var listeners: seq<Listener>
    /** The ten `eventMethod_*` fields: Unbound (never found), Active, or Disabled (set to null). */
    var slots: map<Slot, SlotState>

    /** What every operation keeps: nothing attached or registered twice, and all ten slots present. */
    ghost predicate Valid()
      reads this
    {
      Distinct(inputs) && Distinct(outputs) && Distinct(listeners) && slots.Keys == AllSlots
    }

    function Attached(): Ports
      reads this
    {
      Ports(inputs, outputs)
    }

    /**
     * A bus with no devices and no listeners. `bound` is the outcome of the
     * host method lookup: those slots start Active, the others Unbound.
     */
    constructor (name: string, bound: set<Slot>)
      ensures Valid()
      ensures this.name == name && inputs == [] && outputs == [] && listeners == []
      ensures forall s | s in AllSlots :: slots[s] == if s in bound then Active else Unbound
    {
      this.name := name;
      inputs, outputs, listeners := [], [], [];
      slots := map s | s in AllSlots :: if s in bound then Active else Unbound;
    }

    /* -- Input/Output handling -- */

    /** The names of the attached inputs, in order. */
    method AttachedInputs() returns (names: seq<string>)
      ensures |names| == |inputs|
      ensures forall i | 0 <= i < |inputs| :: names[i] == inputs[i].name
    {
      names := [];
      for i := 0 to |inputs|
        invariant |names| == i
        invariant forall j | 0 <= j < i :: names[j] == inputs[j].name
      {
        names := names + [inputs[i].name];
      }
    }

    /** The names of the attached outputs, in order. */
    method AttachedOutputs() returns (names: seq<string>)
      ensures |names| == |outputs|
      ensures forall i | 0 <= i < |outputs| :: names[i] == outputs[i].name
    {
      names := [];
      for i := 0 to |outputs|
        invariant |names| == i
        invariant forall j | 0 <= j < i :: names[j] == outputs[j].name
      {
        names := names + [outputs[i].name];
      }
    }

    /** `addInput(MidiDevice.Info)`. */
    method AddInput(sys: DeviceOracle, d: Descriptor) returns (ok: bool)
      requires Valid()
      modifies this`inputs
      ensures Valid()
      ensures Change(ok, Attached()) == Attach(sys, Input, old(Attached()), d)
    {
      if sys.maxTransmitters(d) == 0 {
        return false;
      }
      for i := 0 to |inputs|
        invariant d !in inputs[..i]
      {
        if d == inputs[i] {
          return false;
        }
      }
      assert inputs[..|inputs|] == inputs;
      if !sys.opens(d) {
        return false;
      }
      DistinctAppend(inputs, d);
      inputs := inputs + [d];
      ok := true;
    }

    /** `addOutput(MidiDevice.Info)`. */
    method AddOutput(sys: DeviceOracle, d: Descriptor) returns (ok: bool)
      requires Valid()
      modifies this`outputs
      ensures Valid()
      ensures Change(ok, Attached()) == Attach(sys, Output, old(Attached()), d)
    {
      if sys.maxReceivers(d) == 0 {
        return false;
      }
      for i := 0 to |outputs|
        invariant d !in outputs[..i]
      {
        if d == outputs[i] {
          return false;
        }
      }
      assert outputs[..|outputs|] == outputs;
      if !sys.opens(d) {
        return false;
      }
      DistinctAppend(outputs, d);
      outputs := outputs + [d];
      ok := true;
    }

    /** `addInput(int)`, attaching the input found at that index as an input. */
    method AddInputByIndex(sys: DeviceOracle, n: int) returns (ok: bool)
      requires Valid()
      modifies this`inputs
      ensures Valid()
      ensures Change(ok, Attached()) == AttachByIndex(sys, Input, old(Attached()), n)
    {
      if n == -1 {
        return false;
      }
      var devices := sys.availableInputs;
      if n >= |devices| || n < 0 {
        return false;
      }
      ok := AddInput(sys, devices[n]);
    }

    /** `addOutput(int)`, attaching the output found at that index as an output. */
    method AddOutputByIndex(sys: DeviceOracle, n: int) returns (ok: bool)
      requires Valid()
      modifies this`outputs
      ensures Valid()
      ensures Change(ok, Attached()) == AttachByIndex(sys, Output, old(Attached()), n)
    {
      if n == -1 {
        return false;
      }
      var devices := sys.availableOutputs;
      if n >= |devices| || n < 0 {
        return false;
      }
      ok := AddOutput(sys, devices[n]);
    }

    /** `addInput(String)`, attaching the first available input with that name as an input. */
    method AddInputByName(sys: DeviceOracle, deviceName: string) returns (ok: bool)
      requires Valid()
      modifies this`inputs
      ensures Valid()
      ensures Change(ok, Attached()) == AttachByName(sys, Input, old(Attached()), deviceName)
    {
      if deviceName == "" {
        return false;
      }
      var devices := sys.availableInputs;
      for i := 0 to |devices|
        invariant forall j | 0 <= j < i :: devices[j].name != deviceName
      {
        if devices[i].name == deviceName {
          ok := AddInput(sys, devices[i]);
          return;
        }
      }
      ok := false;
    }

    /** `addOutput(String)`: the first available output with that name. */
    method AddOutputByName(sys: DeviceOracle, deviceName: string) returns (ok: bool)
      requires Valid()
      modifies this`outputs
      ensures Valid()
      ensures Change(ok, Attached()) == AttachByName(sys, Output, old(Attached()), deviceName)
    {
      if deviceName == "" {
        return false;
      }
      var devices := sys.availableOutputs;
      for i := 0 to |devices|
        invariant forall j | 0 <= j < i :: devices[j].name != deviceName
      {
        if devices[i].name == deviceName {
          ok := AddOutput(sys, devices[i]);
          return;
        }
      }
      ok := false;
    }

    /** `removeInput(int)`: an index outside the list makes `Vector.get` throw, which is caught as failure. */
    method RemoveInputAt(n: int) returns (ok: bool)
      requires Valid()
      modifies this`inputs
      ensures Valid()
      ensures Change(ok, Attached()) == DetachAt(Input, old(Attached()), n)
    {
      if n < 0 || n >= |inputs| {
        return false;
      }
      var container := inputs[n];
      DetachAtRemovesIndex(Input, Attached(), n);
      inputs := RemoveFirst(inputs, container);
      ok := true;
    }

    /** `removeOutput(int)`. */
    method RemoveOutputAt(n: int) returns (ok: bool)
      requires Valid()
      modifies this`outputs
      ensures Valid()
      ensures Change(ok, Attached()) == DetachAt(Output, old(Attached()), n)
    {
      if n < 0 || n >= |outputs| {
        return false;
      }
      var container := outputs[n];
      DetachAtRemovesIndex(Output, Attached(), n);
      outputs := RemoveFirst(outputs, container);
      ok := true;
    }

    /** `removeInput(String)`: the first attached input with that name. */
    method RemoveInputNamed(deviceName: string) returns (ok: bool)
      requires Valid()
      modifies this`inputs
      ensures Valid()
      ensures Change(ok, Attached()) == DetachNamed(Input, old(Attached()), deviceName)
    {
      var attached := inputs;
      for i := 0 to |attached|
        invariant inputs == attached
        invariant forall j | 0 <= j < i :: attached[j].name != deviceName
      {
        if attached[i].name == deviceName {
          assert FirstNamed(attached, deviceName) == i;
          DetachAtRemovesIndex(Input, Attached(), i);
          inputs := RemoveFirst(attached, attached[i]);
          return true;
        }
      }
      assert FirstNamed(attached, deviceName) == -1;
      ok := false;
    }

    /** `removeOutput(String)`: the first attached output with that name. */
    method RemoveOutputNamed(deviceName: string) returns (ok: bool)
      requires Valid()
      modifies this`outputs
      ensures Valid()
      ensures Change(ok, Attached()) == DetachNamed(Output, old(Attached()), deviceName)
    {
      var attached := outputs;
      for i := 0 to |attached|
        invariant outputs == attached
        invariant forall j | 0 <= j < i :: attached[j].name != deviceName
      {
        if attached[i].name == deviceName {
          assert FirstNamed(attached, deviceName) == i;
          DetachAtRemovesIndex(Output, Attached(), i);
          outputs := RemoveFirst(attached, attached[i]);
          return true;
        }
      }
      assert FirstNamed(attached, deviceName) == -1;
      ok := false;
    }

    /** `clearInputs()`: every input is closed and the list emptied. */
    method ClearInputs()
      requires Valid()
      modifies this`inputs
      ensures Valid() && inputs == []
    {
      inputs := [];
    }

    /** `clearOutputs()`. */
    method ClearOutputs()
      requires Valid()
      modifies this`outputs
      ensures Valid() && outputs == []
    {
      outputs := [];
    }

    /** `clearAll()`. */
    method ClearAll()
      requires Valid()
      modifies this`inputs, this`outputs
      ensures Valid() && inputs == [] && outputs == []
    {
      ClearInputs();
      ClearOutputs();
    }

    /**
     * `close()`: both device lists end empty whatever they held, and nothing
     * else changes, so closing a closed bus changes nothing.
     */
    method Close()
      requires Valid()
      modifies this`inputs, this`outputs
      ensures Valid() && inputs == [] && outputs == []
    {
      ClearAll();
    }

    /* -- Midi out -- */

    /** `sendMessage(MidiMessage)`: the message once to each attached output, in list order. */
    method SendMessage(m: Message) returns (sent: seq<Delivery>)
      ensures |sent| == |outputs|
      ensures forall i | 0 <= i < |outputs| :: sent[i] == Delivery(outputs[i], m)
    {
      sent := [];
      for i := 0 to |outputs|
        invariant |sent| == i
        invariant forall j | 0 <= j < i :: sent[j] == Delivery(outputs[j], m)
      {
        sent := sent + [Delivery(outputs[i], m)];
      }
    }

    /** `sendNoteOn(channel, pitch, velocity)`. */
    method SendNoteOn(channel: int, pitch: int, velocity: int) returns (sent: seq<Delivery>)
      ensures |sent| == |outputs|
      ensures forall i | 0 <= i < |outputs| :: sent[i] == Delivery(outputs[i], Clamped(NOTE_ON, channel, pitch, velocity))
    {
      var message := ChannelVoice(NOTE_ON, Constrain(channel, 0, 15), Constrain(pitch, 0, 127), Constrain(velocity, 0, 127));
      sent := SendMessage(message);
    }

    /** `sendNoteOff(channel, pitch, velocity)`. */
    method SendNoteOff(channel: int, pitch: int, velocity: int) returns (sent: seq<Delivery>)
      ensures |sent| == |outputs|
      ensures forall i | 0 <= i < |outputs| :: sent[i] == Delivery(outputs[i], Clamped(NOTE_OFF, channel, pitch, velocity))
    {
      var message := ChannelVoice(NOTE_OFF, Constrain(channel, 0, 15), Constrain(pitch, 0, 127), Constrain(velocity, 0, 127));
      sent := SendMessage(message);
    }

    /** `sendControllerChange(channel, number, value)`. */
    method SendControllerChange(channel: int, number: int, value: int) returns (sent: seq<Delivery>)
      ensures |sent| == |outputs|
      ensures forall i | 0 <= i < |outputs| :: sent[i] == Delivery(outputs[i], Clamped(CONTROL_CHANGE, channel, number, value))
    {
      var message := ChannelVoice(CONTROL_CHANGE, Constrain(channel, 0, 15), Constrain(number, 0, 127), Constrain(value, 0, 127));
      sent := SendMessage(message);
    }

    /* -- Midi in -- */

    /**
     * The body of the `notifyListeners` loop for one listener: the raw call,
     * then the typed call, then the whole-message call, as its interfaces
     * allow, stopping at the first one that throws.
     */
    method NotifyOne(l: Listener, m: Message, faults: set<Event>) returns (made: seq<Event>, ok: bool)
      requires WellFormed(m)
      ensures (made, ok) == UntilFault(ListenerCalls(l, m), faults)
    {
      ghost var planned: seq<Event> := [];
      made, ok := [], true;
      if Raw in l.caps {
        var e := ToListener(l, RawMidi(m));
        UntilFaultSnoc(planned, e, faults);
        planned := planned + [e];
        made, ok := made + [e], e !in faults;
      }
      if Simple in l.caps {
        var command := Command(m[0]);
        var call: Option<Callback> := None;
        if command == NOTE_ON {
          call := Some(NoteOn(Channel(m[0]), m[1], m[2]));
        } else if command == NOTE_OFF {
          call := Some(NoteOff(Channel(m[0]), m[1], m[2]));
        } else if command == CONTROL_CHANGE {
          call := Some(ControllerChange(Channel(m[0]), m[1], m[2]));
        }
        assert call == SimpleCall(m);
        if call.Some? {
          var e := ToListener(l, call.value);
          UntilFaultSnoc(planned, e, faults);
          planned := planned + [e];
          if ok {
            made, ok := made + [e], e !in faults;
          }
        }
      }
      if Standard in l.caps {
        var e := ToListener(l, MidiMessage(m));
        UntilFaultSnoc(planned, e, faults);
        planned := planned + [e];
        if ok {
          made, ok := made + [e], e !in faults;
        }
      }
      assert planned == ListenerCalls(l, m);
    }

    /**
     * `notifyListeners(message)`: listeners in registration order; an
     * exception thrown by a listener is not caught and ends the dispatch.
     */
    method NotifyListeners(m: Message, faults: set<Event>) returns (trace: seq<Event>, completed: bool)
      requires WellFormed(m)
      ensures (trace, completed) == UntilFault(AllListenerCalls(listeners, m), faults)
    {
      trace := [];
      var i := 0;
      while i < |listeners|
        invariant 0 <= i <= |listeners|
        invariant (trace, true) == UntilFault(AllListenerCalls(listeners[..i], m), faults)
      {
        var made, ok := NotifyOne(listeners[i], m, faults);
        assert listeners[..i + 1][..i] == listeners[..i];
        UntilFaultAppend(AllListenerCalls(listeners[..i], m), ListenerCalls(listeners[i], m), faults);
        trace := trace + made;
        if !ok {
          AllListenerCallsSplit(listeners, i + 1, m);
          UntilFaultAppend(AllListenerCalls(listeners[..i + 1], m), AllListenerCalls(listeners[i + 1..], m), faults);
          return trace, false;
        }
        i := i + 1;
      }
      assert listeners[..i] == listeners;
      completed := true;
    }

    /** One `if (eventMethod != null) { try invoke, catch: set it to null }` block of `notifyPApplet`. */
    method InvokeSlot(s: Slot, c: Callback, failing: set<Slot>) returns (made: seq<Event>)
      modifies this`slots
      ensures (made, slots) == Step(old(slots), s, c, name, failing)
    {
      made := [];
      if s in slots && slots[s] == Active {
        made := [Invocation(s, c, name)];
        if s in failing {
          slots := slots[s := Disabled];
        }
      }
    }

    /** One more slot block, with the blocks already run summarised as a prefix of the plan. */
    method Turn(s: Slot, c: Callback, failing: set<Slot>, ghost start: map<Slot, SlotState>,
                ghost done: seq<(Slot, Callback)>, before: seq<Event>) returns (after: seq<Event>)
      requires (before, slots) == HostDispatch(start, done, name, failing)
      modifies this`slots
      ensures (after, slots) == HostDispatch(start, done + [(s, c)], name, failing)
    {
      HostDispatchSnoc(start, done, (s, c), name, failing);
      var made := InvokeSlot(s, c, failing);
      after := before + made;
    }

    /** The first part of `notifyPApplet`: the typed host methods of the matching command, if any. */
    method NotifyTyped(m: Message, failing: set<Slot>) returns (made: seq<Event>)
      requires WellFormed(m)
      modifies this`slots
      ensures (made, slots) == HostDispatch(old(slots), TypedPlan(m), name, failing)
    {
      ghost var start := slots;
      made := [];
      var command := Command(m[0]);
      if command == NOTE_ON {
        var c := NoteOn(Channel(m[0]), m[1], m[2]);
        made := Turn(Slot(NoteOnMethod, false), c, failing, start, [], made);
        made := Turn(Slot(NoteOnMethod, true), c, failing, start, [(Slot(NoteOnMethod, false), c)], made);
        assert TypedPlan(m) == [(Slot(NoteOnMethod, false), c), (Slot(NoteOnMethod, true), c)];
      } else if command == NOTE_OFF {
        var c := NoteOff(Channel(m[0]), m[1], m[2]);
        made := Turn(Slot(NoteOffMethod, false), c, failing, start, [], made);
        made := Turn(Slot(NoteOffMethod, true), c, failing, start, [(Slot(NoteOffMethod, false), c)], made);
        assert TypedPlan(m) == [(Slot(NoteOffMethod, false), c), (Slot(NoteOffMethod, true), c)];
      } else if command == CONTROL_CHANGE {
        var c := ControllerChange(Channel(m[0]), m[1], m[2]);
        made := Turn(Slot(ControllerChangeMethod, false), c, failing, start, [], made);
        made := Turn(Slot(ControllerChangeMethod, true), c, failing, start, [(Slot(ControllerChangeMethod, false), c)], made);
        assert TypedPlan(m) == [(Slot(ControllerChangeMethod, false), c), (Slot(ControllerChangeMethod, true), c)];
      } else {
        assert TypedPlan(m) == [];
      }
    }

    /**
     * `notifyPApplet(message)`: the typed host methods of the matching command
     * (plain form, then the form with the bus name), then rawMidi and
     * midiMessage in both forms; a method that throws is disabled.
     */
    method NotifyPApplet(m: Message, failing: set<Slot>) returns (made: seq<Event>)
      requires WellFormed(m)
      modifies this`slots
      ensures (made, slots) == HostDispatch(old(slots), HostPlan(m), name, failing)
    {
      ghost var start := slots;
      made := NotifyTyped(m, failing);
      ghost var done := TypedPlan(m);
      made := Turn(Slot(RawMidiMethod, false), RawMidi(m), failing, start, done, made);
      done := done + [(Slot(RawMidiMethod, false), RawMidi(m))];
      made := Turn(Slot(RawMidiMethod, true), RawMidi(m), failing, start, done, made);
      done := done + [(Slot(RawMidiMethod, true), RawMidi(m))];
      made := Turn(Slot(MidiMessageMethod, false), MidiMessage(m), failing, start, done, made);
      done := done + [(Slot(MidiMessageMethod, false), MidiMessage(m))];
      made := Turn(Slot(MidiMessageMethod, true), MidiMessage(m), failing, start, done, made);
      done := done + [(Slot(MidiMessageMethod, true), MidiMessage(m))];
      assert done == HostPlan(m);
    }

    /**
     * `MReceiver.send(message, timeStamp)`: a note-on with velocity 0 is
     * rewritten to a note-off first; then the listeners are notified and, if
     * none of them threw, the host methods.
     */
    method Receive(m: Message, listenerFaults: set<Event>, hostFaults: set<Slot>) returns (trace: seq<Event>)
      requires Valid() && WellFormed(m)
      modifies this`slots
      ensures Valid()
      ensures (trace, slots) == Deliver(listeners, old(slots), Normalize(m), name, listenerFaults, hostFaults)
    {
      var message := Normalize(m);
      var heard, completed := NotifyListeners(message, listenerFaults);
      if !completed {
        return heard;
      }
      var host := NotifyPApplet(message, hostFaults);
      trace := heard + host;
    }

    /* -- Accessors -- */

    /** `getBusName()`. */
    method GetBusName() returns (n: string)
      ensures n == name
    {
      n := name;
    }

    /** `setBusName(bus_name)`: host methods called afterwards receive the new name. */
    method SetBusName(n: string)
      modifies this`name
      ensures name == n
    {
      name := n;
    }

    /** `toString()`. */
    method ToString() returns (s: string)
      ensures s == Summary(name, |inputs|, |outputs|, |listeners|)
    {
      s := "MidiBus: " + name + " [";
      s := s + DecimalString(|inputs|) + " input(s), ";
      s := s + DecimalString(|outputs|) + " output(s), ";
      s := s + DecimalString(|listeners|) + " listener(s)]";
    }

    /* -- Listener handling -- */

    /** `addMidiListener(listener)`: refused when that very listener is already registered. */
    method AddMidiListener(l: Listener) returns (ok: bool)
      requires Valid()
      modifies this`listeners
      ensures Valid()
      ensures ok <==> l !in old(listeners)
      ensures listeners == if ok then old(listeners) + [l] else old(listeners)
    {
      for i := 0 to |listeners|
        invariant l !in listeners[..i]
      {
        if listeners[i] == l {
          return false;
        }
      }
      assert listeners[..|listeners|] == listeners;
      DistinctAppend(listeners, l);
      listeners := listeners + [l];
      ok := true;
    }

    /**
     * `removeMidiListener(listener)`: when registered, removed from its
     * position with the others kept in order; otherwise nothing changes.
     */
    method RemoveMidiListener(l: Listener) returns (ok: bool)
      requires Valid()
      modifies this`listeners
      ensures Valid()
      ensures ok <==> l in old(listeners)
      ensures ok ==> exists k | 0 <= k < |old(listeners)| ::
        old(listeners)[k] == l && listeners == old(listeners)[..k] + old(listeners)[k + 1..]
      ensures !ok ==> listeners == old(listeners)
      ensures l !in listeners
    {
      var current := listeners;
      for i := 0 to |current|
        invariant listeners == current
        invariant l !in current[..i]
      {
        if current[i] == l {
          RemoveFirstAt(current, i);
          DistinctWithout(current, i);
          listeners := RemoveFirst(current, l);
          assert l !in current[..i] && l !in current[i + 1..];
          return true;
        }
      }
      assert current[..|current|] == current;
      ok := false;
    }
  }
}
