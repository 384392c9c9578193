/**
 * The byte-level message model of the bus: status bytes split into a command
 * nibble and a channel nibble, the three-byte channel-voice messages the bus
 * sends, the clamping of outbound arguments, and the inbound rule that a
 * note-on with velocity 0 is a note-off (MIDI 1.0 Detailed Specification,
 * Channel Voice Messages).
 */
module MidiBytes {

  /** One byte of a message, read as an unsigned value (`b & 0xFF`). */
  type Byte = b: int | 0 <= b < 256

  /** A message as the bytes `MidiMessage.getMessage()` returns, status byte first. */
  type Message = seq<Byte>

  const NOTE_OFF: Byte := 0x80
  const NOTE_ON: Byte := 0x90
  const CONTROL_CHANGE: Byte := 0xB0

  /** `status & 0xF0`: the command nibble of a status byte. */
  function Command(status: Byte): Byte {
    status / 16 * 16
  }

  /** `status & 0x0F`: the channel nibble of a status byte. */
  function Channel(status: Byte): int {
    status % 16
  }

  /** The two nibbles put back together give the status byte. */
  lemma StatusSplits(status: Byte)
    ensures Command(status) % 16 == 0 && 0 <= Channel(status) < 16
    ensures Command(status) + Channel(status) == status
  {
  }

  /** Commands whose messages the bus reads two data bytes of. */
  predicate CarriesTwoDataBytes(status: Byte) {
    Command(status) == NOTE_OFF || Command(status) == NOTE_ON || Command(status) == CONTROL_CHANGE
  }

  /** A data byte: the high bit is clear. */
  predicate IsData(b: Byte) {
    b < 128
  }

  /**
   * What the transport guarantees of an inbound message: it has a status byte,
   * and a note-off, note-on or control-change message has its two data bytes,
   * each in 0..127.
   */
  predicate WellFormed(m: Message) {
    |m| >= 1 && (CarriesTwoDataBytes(m[0]) ==> |m| >= 3 && IsData(m[1]) && IsData(m[2]))
  }

  /**
   * The commands the bus builds messages for: note-off, note-on and control
   * change, whose `ShortMessage` carries two data bytes.
   */
  predicate IsTwoDataByteCommand(command: int) {
    command == NOTE_OFF || command == NOTE_ON || command == CONTROL_CHANGE
  }

  /**
   * The three-byte message `ShortMessage.setMessage(command, channel, data1, data2)`
   * builds: status `command | channel`, then the two data bytes. Reading the
   * status back gives the command and the channel again.
   */
  function ChannelVoice(command: int, channel: int, data1: Byte, data2: Byte): (m: Message)
    requires IsTwoDataByteCommand(command) && 0 <= channel < 16 && IsData(data1) && IsData(data2)
    ensures |m| == 3 && WellFormed(m)
    ensures Command(m[0]) == command && Channel(m[0]) == channel
    ensures m[1] == data1 && m[2] == data2
  {
    [command + channel, data1, data2]
  }

  /**
   * `constrain(value, min, max)`: values above `max` become `max`, then values
   * below `min` become `min`. For a non-empty range the result lies in the
   * range, and a value already inside is returned as it is.
   */
  function Constrain(value: int, min: int, max: int): (r: int)
    ensures min <= max ==> min <= r <= max
    ensures min <= value <= max ==> r == value
    ensures max < min ==> r == min
  {
    var capped := if value > max then max else value;
    if capped < min then min else capped
  }

  /** The clamped value is the point of the range nearest to the argument. */
  lemma ConstrainIsNearest(value: int, min: int, max: int, y: int)
    requires min <= max && min <= y <= max
    ensures var r := Constrain(value, min, max);
      (if r <= value then value - r else r - value) <= (if y <= value then value - y else y - value)
  {
  }

  /** Clamping twice is clamping once. */
  lemma ConstrainIdempotent(value: int, min: int, max: int)
    requires min <= max
    ensures Constrain(Constrain(value, min, max), min, max) == Constrain(value, min, max)
  {
  }

  /** A note-on with velocity 0, which by the MIDI rule means a note-off. */
  predicate IsSilentNoteOn(m: Message)
    requires WellFormed(m)
  {
    Command(m[0]) == NOTE_ON && m[2] == 0
  }

  /**
   * The inbound rewrite, as the evident intent of `MReceiver.send`: a note-on
   * with velocity 0 on any channel becomes a note-off on the same channel with
   * the same data bytes; every other message passes through unchanged.
   */
  function Normalize(m: Message): (r: Message)
    requires WellFormed(m)
    ensures WellFormed(r) && !IsSilentNoteOn(r)
    ensures IsSilentNoteOn(m) ==>
      Command(r[0]) == NOTE_OFF && Channel(r[0]) == Channel(m[0]) && r[1..] == m[1..3]
    ensures !IsSilentNoteOn(m) ==> r == m
  {
    if IsSilentNoteOn(m) then ChannelVoice(NOTE_OFF, Channel(m[0]), m[1], m[2]) else m
  }

  /** Normalising a normalised message changes nothing. */
  lemma NormalizeIdempotent(m: Message)
    requires WellFormed(m)
    ensures Normalize(Normalize(m)) == Normalize(m)
  {
  }

  /**
   * The rewrite as `MReceiver.send` writes it: it compares the whole status
   * byte with 0x90, so only channel 0 is rewritten, and the rewrite always
   * emits status 0x80.
   */
  function NormalizeAsWritten(m: Message): (r: Message)
    requires WellFormed(m)
    ensures WellFormed(r)
    ensures Channel(m[0]) != 0 ==> r == m
    ensures r != m ==> IsSilentNoteOn(m) && Command(r[0]) == NOTE_OFF && Channel(r[0]) == 0 && r[1..] == m[1..3]
  {
    if m[0] == NOTE_ON && m[2] == 0 then [NOTE_OFF, m[1], m[2]] else m
  }

  /** On channel 0 the code as written and the intended rule agree. */
  lemma NormalizeAsWrittenAgreesOnChannelZero(m: Message)
    requires WellFormed(m) && Channel(m[0]) == 0
    ensures NormalizeAsWritten(m) == Normalize(m)
  {
    StatusSplits(m[0]);
  }

  /**
   * On every other channel the code as written lets a silent note-on through
   * unchanged, where the intended rule turns it into a note-off.
   */
  lemma NormalizeAsWrittenMissesChannels1To15(channel: int, pitch: Byte)
    requires 1 <= channel < 16 && IsData(pitch)
    ensures var m: Message := [NOTE_ON + channel, pitch, 0];
      WellFormed(m) && IsSilentNoteOn(m) &&
      NormalizeAsWritten(m) == m && IsSilentNoteOn(NormalizeAsWritten(m)) &&
      Normalize(m) == [NOTE_OFF + channel, pitch, 0]
  {
    var m: Message := [NOTE_ON + channel, pitch, 0];
    assert Command(m[0]) == NOTE_ON;
  }
}
