# The MidiBus core in Dafny

This project models the core of `MidiBus`, the Processing library class that connects a sketch to MIDI devices. A bus holds:

- a name;
- an ordered list of attached input devices;
- an ordered list of attached output devices;
- an ordered list of registered listeners;
- ten optional callback methods of the host sketch, called slots here.

Outbound, the bus clamps note and controller arguments into range and builds three-byte channel-voice messages. It hands each message to every attached output, in list order. Inbound, the code rewrites a note-on with velocity 0 on channel 0 into a note-off; the class `MidiBus` of this model applies the corrected rule, on every channel (see Findings). The message is then given to the listeners, according to the listener interfaces each one implements. Last, only if no listener threw, it goes to the host methods that match its command nibble. A host method that throws is disabled for good.

The project has six modules:

| module | file | contents |
|---|---|---|
| `Wrappers` | `wrappers.dfy` | the `Option` type |
| `MidiBytes` | `midi_bytes.dfy` | the byte model: the command and channel nibbles, `constrain`, the three-byte channel-voice message, and the velocity-0 rewrite |
| `Registry` | `registry.dfy` | device descriptors, the device system as an oracle, and specification functions for what attaching and detaching do to the two device lists |
| `Dispatch` | `dispatch.dfy` | listener capabilities, the calls made during inbound dispatch, what an uncaught listener exception does, the ten host slots as an Unbound/Active/Disabled state machine, and the lemmas about all of these |
| `Decimal` | `decimal.dfy` | how `toString` writes a count in decimal, with its inverse |
| `Bus` | `midi_bus.dfy` | the class `MidiBus`: fields `name`, `inputs`, `outputs`, `listeners` and `slots`, and one method per operation of the Java class, each proved against the specification functions above |

The parts of the system that the model does not run appear as inputs:

- The device system is a `DeviceOracle` value. It holds the available descriptors, the transmitter and receiver counts, and whether opening a device succeeds.
- The host's method lookup is the set of slots given to the constructor.
- Listener exceptions are a set of failing calls, given per message.
- Host-method exceptions are a set of failing slots, given per message.

## Model

| member | source | states |
|---|---|---|
| MidiBytes.StatusSplits | src/MidiBus.java:855-860 | The command nibble (`& 0xF0`) and the channel nibble (`& 0x0F`) add back up to the status byte; the channel lies in 0..15. |
| MidiBytes.ChannelVoice | src/MidiBus.java:777 | For note-off, note-on and control change, the three commands the bus sends, `setMessage(command, channel, data1, data2)` builds a well-formed three-byte message. Reading its status back gives the same command and channel, and its data bytes are the given ones. |
| MidiBytes.Constrain | src/MidiBus.java:1020-1024 | For `min <= max` the result lies in the range, and a value already in range is returned unchanged. For `max < min` the result is `min`, because the second test wins. |
| MidiBytes.ConstrainIsNearest | src/MidiBus.java:1020-1024 | The clamped value is the point of the range nearest to the argument. |
| MidiBytes.ConstrainIdempotent | src/MidiBus.java:1020-1024 | Clamping twice gives the same result as clamping once. |
| MidiBytes.Normalize | src/MidiBus.java:1296-1310 | Corrected rewrite. The result is well formed and is never a note-on with velocity 0. A silent note-on becomes a note-off with the same channel and data bytes; every other message passes unchanged. |
| MidiBytes.NormalizeIdempotent | src/MidiBus.java:1296-1310 | Rewriting an already rewritten message changes nothing. |
| MidiBytes.NormalizeAsWritten | src/MidiBus.java:1296-1303 | The rewrite as written. The result is well formed; a message on a channel other than 0 passes unchanged; a message that is changed was a silent note-on and becomes a note-off on channel 0 with the same data bytes. |
| MidiBytes.NormalizeAsWrittenAgreesOnChannelZero | src/MidiBus.java:1298-1301 | On channel 0 the code as written and the corrected rewrite agree. |
| MidiBytes.NormalizeAsWrittenMissesChannels1To15 | src/MidiBus.java:1298-1301 | On channels 1 to 15 the code as written lets a silent note-on through unchanged. The corrected rewrite turns it into a note-off on the same channel. |
| Registry.FirstNamed | src/MidiBus.java:387-399 | Returns the index of the first descriptor with that name, and no earlier descriptor has it. Returns -1 exactly when no descriptor has the name. |
| Registry.RemoveFirst | src/MidiBus.java:347 | `Vector.remove(Object)`. Removing an element that is present shortens the list by one; removing one that is absent changes nothing; no new element ever appears. |
| Registry.RemoveFirstAt | src/MidiBus.java:339-352 | `Vector.remove(Object)` of an element with no equal before it removes exactly that index and keeps the other elements in order. |
| Registry.Attach | src/MidiBus.java:407-437 | `addInput(Info)` and `addOutput(Info)`. The call succeeds if and only if the device has the direction, is not yet attached and opens. Success appends it to that direction; failure changes nothing. The other direction is never touched. |
| Registry.AttachByIndex | src/MidiBus.java:317-328 | Index attach to its own direction. It succeeds if and only if the index is inside the available list and `Attach` accepts that device, which is then appended. Failure changes nothing, and the other direction is untouched. |
| Registry.AttachByName | src/MidiBus.java:492-503 | Name attach to its own direction. It succeeds if and only if the name is non-empty, some available device has it, and `Attach` accepts the first such device. That first device is the one appended. Failure changes nothing, and the other direction is untouched. |
| Registry.AttachByIndexAsWritten | src/MidiBus.java:447-458 | Index attach as written. The outputs never change. It succeeds if and only if the index is inside the requested direction's list and `Attach` accepts that device as an input, which is then appended to the inputs. |
| Registry.AttachByNameAsWritten | src/MidiBus.java:364-375 | Name attach as written. The inputs never change. It succeeds if and only if the name is non-empty, some available device of the requested direction has it, and `Attach` accepts the first such device as an output, which is then appended to the outputs. |
| Registry.DetachAt | src/MidiBus.java:339-352 | `removeInput(int)` and `removeOutput(int)`. The other direction is untouched. The call succeeds exactly for an index inside the list and then removes one element; otherwise nothing changes. |
| Registry.DetachNamed | src/MidiBus.java:387-399 | `removeInput(String)` and `removeOutput(String)`. The other direction is untouched. The call succeeds exactly when an attached device has the name, and then removes one element; otherwise nothing changes. |
| Registry.AttachKeepsDistinct | src/MidiBus.java:407-437 | Attaching keeps a direction's descriptors pairwise distinct and leaves the other direction unchanged. Attaching the same descriptor again fails and changes nothing. |
| Registry.DetachAtRemovesIndex | src/MidiBus.java:339-352 | Removing by index succeeds exactly for an index inside the list. It removes exactly that element, keeps the rest in order and touches only that direction; an out-of-range index changes nothing. |
| Registry.DetachNamedRemovesFirstMatch | src/MidiBus.java:387-399 | Removing by name succeeds exactly when an attached device has the name. It removes only the first such device and keeps the rest in order; otherwise nothing changes. |
| Registry.AsWrittenRightInOneDirection | src/MidiBus.java:317-328 | `addInput(int)` (line 327) and `addOutput(String)` (line 498) pass the device to the right direction. For every argument, the code as written agrees with the corrected attach in those two cases. |
| Registry.AddOutputByIndexNeedsTransmitter | src/MidiBus.java:447-458 | As written, `addOutput(int)` never attaches anything, at any index, when no available output has a transmitter. |
| Registry.AddInputByNameNeedsReceiver | src/MidiBus.java:364-375 | As written, `addInput(String)` never attaches anything, under any name, when no available input has a receiver. |
| Registry.AddOutputByIndexCounterexample | src/MidiBus.java:457 | `addOutput(0)` on an output-only device: the code as written fails, and the corrected call attaches the device as an output. |
| Registry.AddInputByNameCounterexample | src/MidiBus.java:370 | `addInput(name)` on an input-only device: the code as written fails, and the corrected call attaches the device as an input. |
| Dispatch.SimpleCall | src/MidiBus.java:854-862 | A SimpleMidiListener call exists exactly for note-off, note-on and control-change status bytes. It carries the channel nibble, and its kind follows the command nibble. |
| Dispatch.ListenerCalls | src/MidiBus.java:846-868 | Every call one listener receives is addressed to it and is one its interfaces entitle it to. |
| Dispatch.AllListenerCalls | src/MidiBus.java:844-870 | Every listener call goes to a registered listener. |
| Dispatch.SimpleCallDecodesChannelVoice | src/MidiBus.java:854-862 | For a note-on, note-off or control-change message the bus builds, the SimpleMidiListener decoding returns the same call: same channel, same data bytes. |
| Dispatch.ListenerCallsAreEntitled | src/MidiBus.java:844-870 | A listener call occurs in dispatch if and only if it goes to a registered listener and is a call that listener's interfaces entitle it to. |
| Dispatch.RawOnlyListener | src/MidiBus.java:848-850 | A listener that implements only RawMidiListener is entitled to exactly the raw-bytes call. |
| Dispatch.AllListenerCallsSplit | src/MidiBus.java:844 | Listeners are visited in registration order: the calls for the first `j` listeners come before the calls for the rest. |
| Dispatch.UntilFault | src/MidiBus.java:841-871 | With no try/catch in place, the calls made are a prefix of the planned calls. Dispatch completes if and only if no planned call throws, and then every planned call is made. Otherwise the last call made is the first one that throws. |
| Dispatch.UntilFaultAppend | src/MidiBus.java:841-871 | Dispatching two runs of calls in sequence is the same as dispatching the first run and, only if none of it threw, then the second run. |
| Dispatch.HostPlan | src/MidiBus.java:878-978 | Six host methods are tried for a note-off, note-on or control change, and four for any other message. The rawMidi block comes fourth from the end, and the midiMessage block comes last. |
| Dispatch.TypedPlan | src/MidiBus.java:881-938 | There are two typed entries for a note-off, note-on or control change, and none otherwise. Each carries the SimpleMidiListener call for the message, and goes to the host method that takes that call and fires for the command nibble. The plain form comes before the bus-name form. |
| Dispatch.Invocation | src/MidiBus.java:884-893 | A host call goes to its slot with its callback. It carries a bus name exactly when the slot is the bus-name form, and that name is the current one. |
| Dispatch.Step | src/MidiBus.java:880-888 | One slot's block. Exactly an Active slot is called, once. It ends Disabled if and only if it was Disabled already or it was Active and threw. A slot that is not Active keeps its state, and every other slot is untouched. |
| Dispatch.HostPlanShape | src/MidiBus.java:878-978 | `notifyPApplet`'s order: the typed pair, present only for a note-on, note-off or control-change, then rawMidi in both forms, then midiMessage in both forms. |
| Dispatch.HostPlanMatchesStatus | src/MidiBus.java:878-978 | Each slot is tried at most once. A slot is tried if and only if it should fire for the message's command nibble, and it gets the call its host method takes. |
| Dispatch.HostDispatch | src/MidiBus.java:878-978 | Dispatching to the host never adds or removes a slot. |
| Dispatch.HostDispatchIsIsolated | src/MidiBus.java:878-978 | Dispatching equals invoking every slot that was Active beforehand, then disabling exactly those that threw. One slot's failure never affects another slot in the same message. |
| Dispatch.HostInvocations | src/MidiBus.java:878-978 | Every host call goes to an Active slot that should fire, carries the matching decoded call, and carries the current bus name exactly in the bus-name form. Every Active slot that should fire is called. Afterwards exactly the called slots that threw are Disabled. |
| Dispatch.OnlyRawMidiBound | src/MidiBus.java:939-948 | A host with only `rawMidi(byte[])` gets exactly one call per message: that method, with the raw bytes. |
| Dispatch.HostSession | src/MidiBus.java:878-978 | Over any run of messages, all ten slots stay present. |
| Dispatch.InactiveSlotStaysSilent | src/MidiBus.java:878-978 | A slot that is Unbound or Disabled is never called in any later message and keeps its state. |
| Dispatch.FaultDisablesForever | src/MidiBus.java:880-888 | A slot that throws is called for that message and is Disabled afterwards, and it is never called for any later message. Every other slot that did not throw keeps its state. |
| Dispatch.Deliver | src/MidiBus.java:1308-1309 | The slot set is unchanged. If a listener threw, only listener calls are made and no slot changes state. If none threw, every listener call is made and then the host is dispatched on its full plan, with the slot states it leaves. |
| Dispatch.SilentNoteOnReachesObserversAsNoteOff | src/MidiBus.java:1296-1310 | After the rewrite, no listener or host call for a silent note-on is a note-on. Every note-off call it causes has the original channel, the original pitch and velocity 0. |
| Decimal.DecimalString | src/MidiBus.java:1053-1059 | A count is written as a non-empty string of decimal digits with no leading zero. |
| Decimal.DecimalRoundTrip | src/MidiBus.java:1053-1059 | Reading the digits back gives the count. |
| Bus.Clamped | src/MidiBus.java:774-832 | For note-off, note-on and control change, the message the send methods build keeps the command. Its channel is in 0..15 and its data bytes in 0..127, and arguments already in range are sent unchanged. |
| Bus.SentMessagesReadBack | src/MidiBus.java:774-832 | A note-on, note-off or control change the bus sends is decoded by a receiving SimpleMidiListener as the same call, with the clamped arguments. |
| Bus.Summary | src/MidiBus.java:1053-1059 | The `toString` text starts with `MidiBus: ` followed by the bus name, and ends with `]`. |
| Bus.SummaryDeterminesCounts | src/MidiBus.java:1053-1059 | For a fixed bus name, the `toString` text determines the input, output and listener counts. |
| Bus.MidiBus.constructor | src/MidiBus.java:188-262 | A new bus has the given name and no devices or listeners. The slots the host method lookup found start Active; the others start Unbound. |
| Bus.MidiBus.AttachedInputs | src/MidiBus.java:267-276 | Returns the names of the attached inputs, one per input, in order. |
| Bus.MidiBus.AttachedOutputs | src/MidiBus.java:278-287 | Returns the names of the attached outputs, one per output, in order. |
| Bus.MidiBus.AddInput | src/MidiBus.java:407-437 | Three cases return false and leave the lists unchanged: a device with no transmitter, an equal descriptor already attached, and a device that fails to open. Otherwise the descriptor is appended to the inputs, and the result is true. |
| Bus.MidiBus.AddOutput | src/MidiBus.java:534-559 | The same as AddInput for outputs, where a device needs a receiver. |
| Bus.MidiBus.AddInputByIndex | src/MidiBus.java:317-328 | -1 and any out-of-range index fail with no change. Otherwise the input at that index is attached as an input. |
| Bus.MidiBus.AddOutputByIndex | src/MidiBus.java:447-458 | Corrected: the same as AddInputByIndex, attaching the available output at that index as an output. |
| Bus.MidiBus.AddInputByName | src/MidiBus.java:364-375 | Corrected: an empty name, or no available input with that name, fails with no change. Otherwise the first such input is attached as an input. |
| Bus.MidiBus.AddOutputByName | src/MidiBus.java:492-503 | An empty name, or no available output with that name, fails with no change. Otherwise the first such output is attached as an output. |
| Bus.MidiBus.RemoveInputAt | src/MidiBus.java:339-352 | Agrees with `DetachAt`: an index outside the list fails, and otherwise that input is removed. |
| Bus.MidiBus.RemoveOutputAt | src/MidiBus.java:468-480 | Agrees with `DetachAt` for outputs. |
| Bus.MidiBus.RemoveInputNamed | src/MidiBus.java:387-399 | Agrees with `DetachNamed`: the first attached input with that name is removed. |
| Bus.MidiBus.RemoveOutputNamed | src/MidiBus.java:515-526 | Agrees with `DetachNamed` for outputs. |
| Bus.MidiBus.ClearInputs | src/MidiBus.java:567-575 | The inputs end empty; nothing else changes. |
| Bus.MidiBus.ClearOutputs | src/MidiBus.java:583-590 | The outputs end empty; nothing else changes. |
| Bus.MidiBus.ClearAll | src/MidiBus.java:598-601 | Both device lists end empty; listeners, name and slots are untouched. |
| Bus.MidiBus.Close | src/MidiBus.java:1128-1130 | Both device lists end empty whatever they held, and nothing else changes, so a second close changes nothing. |
| Bus.MidiBus.SendMessage | src/MidiBus.java:753-757 | Sends the message exactly once to each attached output, in list order. With no outputs, nothing is sent. |
| Bus.MidiBus.SendNoteOn | src/MidiBus.java:774-782 | Sends the clamped note-on once to each attached output, in order. |
| Bus.MidiBus.SendNoteOff | src/MidiBus.java:799-807 | Sends the clamped note-off once to each attached output, in order. |
| Bus.MidiBus.SendControllerChange | src/MidiBus.java:824-832 | Sends the clamped control change once to each attached output, in order. |
| Bus.MidiBus.NotifyOne | src/MidiBus.java:846-868 | For one listener: the raw call, then the typed call, then the whole-message call, as its interfaces allow. Dispatch stops at the first call that throws. |
| Bus.MidiBus.NotifyListeners | src/MidiBus.java:841-871 | The calls made are the listener calls in registration order, up to and including the first one that throws. |
| Bus.MidiBus.InvokeSlot | src/MidiBus.java:880-888 | An Active slot is called and is Disabled if it throws. A slot that is not Active is skipped. |
| Bus.MidiBus.NotifyTyped | src/MidiBus.java:880-938 | The typed pair of host methods for the message's command nibble, each handled as InvokeSlot describes. |
| Bus.MidiBus.NotifyPApplet | src/MidiBus.java:878-978 | Agrees with `HostDispatch` on the plan of the message, so HostInvocations and HostDispatchIsIsolated apply. |
| Bus.MidiBus.Receive | src/MidiBus.java:1296-1310 | Agrees with `Deliver` on the rewritten message: listeners first, and the host only if no listener threw. |
| Bus.MidiBus.GetBusName | src/MidiBus.java:1032-1034 | Returns the current name. |
| Bus.MidiBus.SetBusName | src/MidiBus.java:1042-1044 | Sets the name that later bus-name host calls receive; nothing else changes. |
| Bus.MidiBus.ToString | src/MidiBus.java:1053-1059 | Returns the summary text, from which the counts can be recovered (SummaryDeterminesCounts). |
| Bus.MidiBus.AddMidiListener | src/MidiBus.java:989-995 | Fails, with no change, if and only if the same reference is already registered. Otherwise the listener is appended at the end. |
| Bus.MidiBus.RemoveMidiListener | src/MidiBus.java:1004-1012 | Succeeds if and only if the listener is registered. It is then removed from its position, the others stay in order, and it is no longer registered; otherwise nothing changes. |

## Findings

| source | as written | input that shows it | evidently intended | confidence | as-written member | corrected member |
|---|---|---|---|---|---|---|
| src/MidiBus.java:1298 | Compares the whole status byte with 0x90, so only channel 0 is rewritten, always to status 0x80 | `[0x91, 60, 0]`, a silent note-on on channel 1, reaches listeners and host as a note-on | A note-on with velocity 0 on any channel becomes a note-off on that channel, as the MIDI 1.0 rule and the nibble tests elsewhere in the class say | high (not executed) | MidiBytes.NormalizeAsWrittenMissesChannels1To15 | MidiBytes.Normalize |
| src/MidiBus.java:370 | `addInput(String)` hands the found input device to `addOutput(MidiDevice.Info)` | An input-only device named `d` that opens: `addInput("d")` returns false, and a device with both directions is attached as an output | Attach it as an input | high (not executed) | Registry.AddInputByNameCounterexample | Bus.MidiBus.AddInputByName |
| src/MidiBus.java:457 | `addOutput(int)` hands the output device to `addInput(MidiDevice.Info)` | An output-only device at index 0 that opens: `addOutput(0)` returns false | Attach it as an output | high (not executed) | Registry.AddOutputByIndexCounterexample | Bus.MidiBus.AddOutputByIndex |

The class `Bus.MidiBus` uses the corrected behaviour in all three cases. The as-written behaviour is kept as the pure functions `MidiBytes.NormalizeAsWritten`, `Registry.AttachByIndexAsWritten` and `Registry.AttachByNameAsWritten`.

### Listener exceptions and the javadoc

- **Listener exceptions.** `notifyListeners` (src/MidiBus.java:841-871) has no try/catch, and neither does its call in `MReceiver.send` (lines 1308-1309). The model follows that code: the first listener call that throws ends listener dispatch, and the host is not notified of that message. See `UntilFault` and `Deliver`.
- **Attach direction.** The javadoc of `addInput(int)` (lines 309-316), `addInput(String)` (lines 354-363) and `addOutput(int)` (lines 439-446) says each adds a device of its own direction. The code does not do so in the two cases listed under Findings.

## Left out

- `sendMessage(byte[])` (src/MidiBus.java:618-646) is not modelled, for two reasons:
  - Its meta-message branch calls itself with the same argument (line 625), which is unbounded recursion.
  - Its short-message branch reads `data[1]` and `data[2]` without checking the length (line 640).
- The `sendMessage(int ...)` overloads (src/MidiBus.java:661-738): their validity rules live in `ShortMessage.setMessage`, which is not part of this model.
- Device enumeration and probing (`availableInputs`, `availableOutputs`, `unavailableDevices` and their helpers, src/MidiBus.java:1180-1282) are replaced by the `DeviceOracle` value. So are `MidiSystem.getMidiDevice`, `open`, `getTransmitter` and `getReceiver`.
- Closing transmitters, receivers and devices on removal, clear and close is I/O. The model removes the descriptor only.
- The reflection lookup of host methods in `init` (src/MidiBus.java:188-251) is replaced by the constructor's `bound` set. `registerDispose`, `finalize`, `stop` and `dispose` are left out: the last two only call `close`.
- Generating a bus name from the clock (src/MidiBus.java:180-183) is left out.
- The convenience constructors that attach devices by index or name are not modelled separately. They run `init`, then the attach operations modelled here.
- `list()` and every `System.err` warning are console output, and are left out.
- `equals`, `hashCode` and `clone` (src/MidiBus.java:1067-1109) depend on device handles and are left out.
- Bus.MidiBus.NotifyListeners, Bus.MidiBus.NotifyPApplet and Bus.MidiBus.Receive: callbacks that call back into the bus are not modelled; the listener list and the bus name are fixed for the whole of one message. In the code, a listener that adds or removes a listener during the loop at line 844 makes the Vector iterator throw, or end early. A host method that calls `setBusName` changes the name that later bus-name calls for the same message receive.
- Bus.MidiBus.NotifyListeners and Bus.MidiBus.Receive: writes by a listener to the shared `data` array (line 842) are not modelled. The message is a value, so a RawMidiListener that changes the bytes does not affect the calls made after it, as it would in the code (lines 849, 855-860).
- Concurrency is left out. Devices deliver messages on their own threads; the model treats each `Receive` as one atomic step. Timestamps are ignored.
- Messages are modelled as byte sequences. `midiMessage(MidiMessage)` receives the message's bytes, and the in-place `setMessage` on the received `ShortMessage` is a new value. The defensive catch around that rewrite (line 1303) is not modelled. It cannot fire for a message the model calls well formed, because `WellFormed` requires both data bytes of a note-on to be in 0..127, as `setMessage` does.
- Bus.MidiBus.Receive requires a well-formed message. That means a status byte, plus both data bytes, each in 0..127, for note-off, note-on and control change, which the MIDI transport guarantees for short messages. The code reads those bytes unchecked.
- Listener identity: `removeMidiListener` removes through `Vector.remove(Object)`, which uses `equals`. The model compares listeners by reference, as the default `equals` does.
- `sendNoteOn`, `sendNoteOff` and `sendControllerChange` catch `InvalidMidiDataException`. That cannot happen once the arguments are clamped, so the catch is not modelled.
