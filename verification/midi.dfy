/**
 * The MIDI encoder: turns one genome into the byte image of a two-track
 * Standard MIDI File. Every 4 bits of the genome select one of 14 pitches of
 * a scale and become a Note On / Note Off pair on channel 0; the events are
 * framed by fixed header, tempo, time-signature and track-name bytes.
 */
module Midi {
  import Genetic

  type byte = x: int | 0 <= x < 256

  /** A 4-bit group read as an unsigned number. */
  type Nibble = x: nat | x < 16

  /** The 14 pitches of two octaves of a scale, already converted to note numbers. */
  type PitchTable = s: seq<byte> | |s| == 14 witness [0, 0, 0, 0, 0, 0, 0, 0, 0, 0, 0, 0, 0, 0]

  const DefaultVelocity: byte := 0x64

  /**
   * The encoder buffer's initial contents: the MThd chunk, the first MTrk
   * chunk header and the start of the Set Tempo meta-event.
   */
  const InitialMidiBytes: seq<byte> := [
    0x4D, 0x54, 0x68, 0x64, 0x00, 0x00, 0x00, 0x06,
    0x00, 0x01, 0x00, 0x02, 0x00, 0x60, 0x4D, 0x54,
    0x72, 0x6B, 0x00, 0x00, 0x00, 0x13, 0x00, 0xFF,
    0x51
  ]

  /** The bytes encodeGenomeToMidi pushes in place of the tempo bytes. */
  const TempoLiteral: seq<byte> := [0x03, 0x07, 0x0A]

  /**
   * Last tempo byte, time signature, end of track 1, the MTrk header of
   * track 2 with its fixed length, and the track-name meta-event.
   */
  const HeaderPartAfterTempo: seq<byte> := [
    0xE2, 0x00, 0xFF, 0x58,
    0x04, 0x04, 0x02, 0x18, 0x08, 0x00, 0xFF, 0x2F,
    0x00, 0x4D, 0x54, 0x72, 0x6B, 0x00,
    0x00, 0x01, 0x11,
    0x00, 0xFF, 0x03, 0x09, 0x53, 0x61, 0x6D,
    0x70, 0x6C, 0x65, 0x72, 0x20, 0x31
  ]

  /** End-of-track meta-event. */
  const TailPart: seq<byte> := [0x00, 0xFF, 0x2F, 0x00]

  // ---------------------------------------------------------------------
  // Reading bits and bytes
  // ---------------------------------------------------------------------

  function Bit(b: bool): nat {
    if b then 1 else 0
  }

  /**
   * std::bitset<4>::to_ulong: bit k of the group has weight 2^k, so the
   * first bit of the group in genome order is the least significant.
   */
  function ToUlong(note: seq<bool>): (v: Nibble)
    requires |note| == 4
    ensures v % 2 == Bit(note[0]) && (v / 2) % 2 == Bit(note[1])
    ensures (v / 4) % 2 == Bit(note[2]) && v / 8 == Bit(note[3])
  {
    Bit(note[0]) + 2 * Bit(note[1]) + 4 * Bit(note[2]) + 8 * Bit(note[3])
  }

  /**
   * The value of the 4-bit groups of a genome, in order: one per whole
   * group; trailing bits that do not fill a group are dropped.
   */
  function Groups(genome: Genetic.Genome): (r: seq<Nibble>)
    ensures |r| == |genome| / 4
  {
    seq(|genome| / 4, k requires 0 <= k < |genome| / 4 => ToUlong(genome[4 * k..4 * k + 4]))
  }

  /** An unsigned number written most significant byte first. */
  function BigEndian(bs: seq<byte>): nat {
    if bs == [] then 0 else BigEndian(bs[..|bs| - 1]) * 256 + bs[|bs| - 1]
  }

  lemma BigEndianSnoc(bs: seq<byte>, b: byte)
    ensures BigEndian(bs + [b]) == BigEndian(bs) * 256 + b
  {
    assert (bs + [b])[..|bs|] == bs;
  }

  /** ASCII codes of a text made of 7-bit characters. */
  function Ascii(s: string): seq<int> {
    seq(|s|, k requires 0 <= k < |s| => s[k] as int)
  }

  // ---------------------------------------------------------------------
  // The tempo bytes
  // ---------------------------------------------------------------------

  /** `x >> 8i`: i shifts right by one byte. */
  function ShiftBytes(x: nat, i: nat): nat
    decreases i
  {
    if i == 0 then x else ShiftBytes(x / 256, i - 1)
  }

  /** A one-byte value shifted right by one byte or more is zero. */
  lemma {:induction false} ShiftedByteIsZero(x: nat, i: nat)
    requires x < 256 && 1 <= i
    ensures ShiftBytes(x, i) == 0
    decreases i
  {
    if i > 1 {
      ShiftedByteIsZero(x / 256, i - 1);
    }
  }

  /**
   * decimalTempoToBytes: byte 2 - i holds `tempo >> 8i` truncated to a
   * byte. The tempo is itself one byte, so the two leading bytes are zero.
   */
  method DecimalTempoToBytes(tempo: byte) returns (arrayOfBytes: seq<byte>)
    ensures arrayOfBytes == [0, 0, tempo]
    ensures BigEndian(arrayOfBytes) == tempo
  {
    var bytes := new byte[3](_ => 0);
    for i := 0 to 3
      invariant 1 <= i ==> bytes[2] == tempo
      invariant 2 <= i ==> bytes[1] == 0
      invariant 3 <= i ==> bytes[0] == 0
    {
      var shifted := ShiftBytes(tempo, i);
      if 1 <= i {
        ShiftedByteIsZero(tempo, i);
      }
      bytes[2 - i] := shifted % 256;
    }
    arrayOfBytes := bytes[..];
    BigEndianSnoc([], 0);
    BigEndianSnoc([0], 0);
    BigEndianSnoc([0, 0], tempo);
    assert [] + [0] == [0] && [0] + [0] == [0, 0] && [0, 0] + [tempo] == [0, 0, tempo];
  }

  // ---------------------------------------------------------------------
  // Turning 4-bit groups into note events
  // ---------------------------------------------------------------------

  /** Scale index and velocity chosen for one group. */
  datatype Resolved = Resolved(idx: int, velocity: byte)

  /**
   * Group 0000 is a rest: it repeats the previous index at velocity 0.
   * Group 1111 repeats the previous index at the default velocity. With no
   * previous index (prevIdx 0) both keep their own value, and every other
   * group is its own index.
   */
  function Resolve(raw: Nibble, prevIdx: nat): (r: Resolved)
    ensures r.idx == if (raw == 0 || raw == 15) && prevIdx != 0 then prevIdx else raw
    ensures r.velocity == if raw == 0 then 0x00 else DefaultVelocity
  {
    var velocity: byte := if raw == 0 then 0x00 else DefaultVelocity;
    var idx: int := if raw == 0 then prevIdx else raw;
    if idx == 15 && prevIdx != 0 then
      Resolved(if prevIdx != 0 then prevIdx else 1, velocity)
    else
      Resolved(idx, velocity)
  }

  /** A Note On at `velocity` followed after 0x60 ticks by the matching Note Off. */
  function Event(pitch: byte, velocity: byte): seq<byte> {
    [0x00, 0x90, pitch, velocity, 0x60, 0x80, pitch, 0x40]
  }

  /**
   * What writeGenomeToMidiBytes has appended after a sequence of groups, the
   * prevIdx it carries, and whether scale.at threw. A throw happens after
   * the two leading bytes of the Note On are pushed and ends the encoding.
   */
  datatype Emission = Emission(bytes: seq<byte>, prevIdx: nat, failed: bool)

  function Emit(scale: PitchTable, groups: seq<Nibble>): (r: Emission)
    ensures !r.failed ==> |r.bytes| == 8 * |groups|
    ensures r.failed ==> r.bytes == [0x00, 0x90]
  {
    if groups == [] then Emission([], 0, false)
    else
      var e := Emit(scale, groups[..|groups| - 1]);
      if e.failed then e
      else
        var r := Resolve(groups[|groups| - 1], e.prevIdx);
        if 1 <= r.idx <= |scale| then
          Emission(e.bytes + Event(scale[r.idx - 1], r.velocity), r.idx, false)
        else
          Emission(e.bytes + [0x00, 0x90], e.prevIdx, true)
  }

  /**
   * No groups, no bytes and no previous index; after a group without a
   * throw, prevIdx is a valid scale index (1..14) whose pitch the last
   * event plays.
   */
  lemma {:induction false} EmitShape(scale: PitchTable, groups: seq<Nibble>)
    ensures var e := Emit(scale, groups);
      && (groups == [] ==> e == Emission([], 0, false))
      && (!e.failed && groups != [] ==> 1 <= e.prevIdx <= 14 && e.bytes[|e.bytes| - 6] == scale[e.prevIdx - 1])
    decreases |groups|
  {
    if groups != [] {
      EmitShape(scale, groups[..|groups| - 1]);
    }
  }

  /** The encoding throws exactly when the first group is 0000 or 1111: there is no previous note yet. */
  lemma {:induction false} EmitFailsOnlyOnFirstGroup(scale: PitchTable, groups: seq<Nibble>)
    ensures Emit(scale, groups).failed <==> groups != [] && (groups[0] == 0 || groups[0] == 15)
    decreases |groups|
  {
    if |groups| > 1 {
      var init := groups[..|groups| - 1];
      EmitFailsOnlyOnFirstGroup(scale, init);
      assert init[0] == groups[0];
    }
  }

  /** Once the encoding has thrown, later groups change nothing. */
  lemma {:induction false} EmitFailureAbsorbs(scale: PitchTable, groups: seq<Nibble>, n: nat)
    requires n <= |groups| && Emit(scale, groups[..n]).failed
    ensures Emit(scale, groups) == Emit(scale, groups[..n])
    decreases |groups|
  {
    if n < |groups| {
      var init := groups[..|groups| - 1];
      assert init[..n] == groups[..n];
      EmitFailureAbsorbs(scale, init, n);
    } else {
      assert groups[..n] == groups;
    }
  }

  /**
   * Event k of a successful encoding: the eight bytes at 8k are a Note On
   * and Note Off of the same pitch; the velocity is 0 for a rest (0000) and
   * 0x64 otherwise; a group 1..14 plays that scale degree and a 0000 or
   * 1111 group repeats the previous group's pitch.
   */
  predicate EventLaidOut(scale: PitchTable, groups: seq<Nibble>, bytes: seq<byte>, k: nat) {
    && k < |groups| && |bytes| == 8 * |groups|
    && bytes[8 * k..8 * k + 8] == Event(bytes[8 * k + 2], if groups[k] == 0 then 0x00 else DefaultVelocity)
    && (1 <= groups[k] <= 14 ==> bytes[8 * k + 2] == scale[groups[k] - 1])
    && (0 < k && (groups[k] == 0 || groups[k] == 15) ==> bytes[8 * k + 2] == bytes[8 * (k - 1) + 2])
  }

  /** Every event of a successful encoding is laid out as EventLaidOut says. */
  lemma {:induction false} EmitEventLayout(scale: PitchTable, groups: seq<Nibble>)
    requires !Emit(scale, groups).failed
    ensures forall k :: 0 <= k < |groups| ==> EventLaidOut(scale, groups, Emit(scale, groups).bytes, k)
    decreases |groups|
  {
    if groups != [] {
      EmitLastStep(scale, groups);
      EmitEventLayout(scale, groups[..|groups| - 1]);
      forall k | 0 <= k < |groups|
        ensures EventLaidOut(scale, groups, Emit(scale, groups).bytes, k)
      {
        if k + 1 < |groups| {
          EarlierEventKept(scale, groups, k);
        } else {
          LastEventLaidOut(scale, groups);
        }
      }
    }
  }

  /** Appending a group leaves the earlier events as they were. */
  lemma EarlierEventKept(scale: PitchTable, groups: seq<Nibble>, k: nat)
    requires !Emit(scale, groups).failed && k + 1 < |groups|
    requires EventLaidOut(scale, groups[..|groups| - 1], Emit(scale, groups[..|groups| - 1]).bytes, k)
    ensures EventLaidOut(scale, groups, Emit(scale, groups).bytes, k)
  {
    var init := groups[..|groups| - 1];
    var e := Emit(scale, init);
    EmitShape(scale, init);
    EmitShape(scale, groups);
    var r := Resolve(groups[|groups| - 1], e.prevIdx);
    var bytes := Emit(scale, groups).bytes;
    assert bytes == e.bytes + Event(scale[r.idx - 1], r.velocity);
    assert bytes[..|e.bytes|] == e.bytes;
    EventLaidOutInPrefix(scale, init, e.bytes, groups, bytes, k);
  }

  lemma EventLaidOutInPrefix(scale: PitchTable, groups: seq<Nibble>, bytes: seq<byte>,
                             longer: seq<Nibble>, longerBytes: seq<byte>, k: nat)
    requires EventLaidOut(scale, groups, bytes, k)
    requires |groups| <= |longer| && longer[..|groups|] == groups
    requires |longerBytes| == 8 * |longer| && longerBytes[..|bytes|] == bytes
    ensures EventLaidOut(scale, longer, longerBytes, k)
  {
    assert longerBytes[8 * k..8 * k + 8] == bytes[8 * k..8 * k + 8];
    assert longer[k] == groups[k];
    if 0 < k {
      assert longerBytes[8 * (k - 1) + 2] == bytes[8 * (k - 1) + 2];
    }
  }

  /** Extending a prefix of the groups by one group is one step of the encoding. */
  lemma EmitPrefixStep(scale: PitchTable, groups: seq<Nibble>, done: nat)
    requires done < |groups|
    ensures var e := Emit(scale, groups[..done]);
      var r := Resolve(groups[done], e.prevIdx);
      Emit(scale, groups[..done + 1])
        == if e.failed then e
           else if 1 <= r.idx <= 14 then Emission(e.bytes + Event(scale[r.idx - 1], r.velocity), r.idx, false)
           else Emission(e.bytes + [0x00, 0x90], e.prevIdx, true)
  {
    assert groups[..done + 1][..done] == groups[..done];
  }

  /** One step of the encoding: a successful run over groups extends the run over all but the last group by the event of the last group. */
  lemma EmitLastStep(scale: PitchTable, groups: seq<Nibble>)
    requires groups != [] && !Emit(scale, groups).failed
    ensures var e := Emit(scale, groups[..|groups| - 1]);
      var r := Resolve(groups[|groups| - 1], e.prevIdx);
      && !e.failed && 1 <= r.idx <= 14
      && Emit(scale, groups).bytes == e.bytes + Event(scale[r.idx - 1], r.velocity)
  { }

  /** A successful run starts from no previous index exactly when it is empty; after a group, the last event plays the previous index. */
  lemma EmitPrefixShape(scale: PitchTable, init: seq<Nibble>)
    requires !Emit(scale, init).failed
    ensures var e := Emit(scale, init);
      && |e.bytes| == 8 * |init|
      && (|init| == 0 <==> e.prevIdx == 0)
      && (0 < |init| ==> 1 <= e.prevIdx <= 14 && e.bytes[|e.bytes| - 6] == scale[e.prevIdx - 1])
  {
    EmitShape(scale, init);
    if 0 < |init| {
      assert init != [];
    } else {
      assert init == [];
    }
  }

  /** The event of the last group. */
  lemma LastEventLaidOut(scale: PitchTable, groups: seq<Nibble>)
    requires !Emit(scale, groups).failed && groups != []
    ensures EventLaidOut(scale, groups, Emit(scale, groups).bytes, |groups| - 1)
  {
    EmitLastStep(scale, groups);
    EmitPrefixShape(scale, groups[..|groups| - 1]);
    var e := Emit(scale, groups[..|groups| - 1]);
    AppendedEventLaidOut(scale, groups, e.bytes, e.prevIdx, Resolve(groups[|groups| - 1], e.prevIdx), Emit(scale, groups).bytes);
  }

  /** Appending the resolved event of the last group lays it out as EventLaidOut says. */
  lemma AppendedEventLaidOut(scale: PitchTable, groups: seq<Nibble>, before: seq<byte>, prevIdx: nat, r: Resolved, bytes: seq<byte>)
    requires groups != [] && |before| == 8 * (|groups| - 1)
    requires |groups| == 1 <==> prevIdx == 0
    requires 1 < |groups| ==> 1 <= prevIdx <= 14 && before[|before| - 6] == scale[prevIdx - 1]
    requires r == Resolve(groups[|groups| - 1], prevIdx) && 1 <= r.idx <= 14
    requires bytes == before + Event(scale[r.idx - 1], r.velocity)
    ensures EventLaidOut(scale, groups, bytes, |groups| - 1)
  {
    var n := |groups| - 1;
    var pitch := scale[r.idx - 1];
    var event := Event(pitch, r.velocity);
    assert bytes[8 * n..8 * n + 8] == event;
    assert bytes[8 * n + 2] == pitch;
    if 0 < n {
      assert bytes[8 * (n - 1) + 2] == before[|before| - 6];
    }
  }

  // ---------------------------------------------------------------------
  // Groups of a genome
  // ---------------------------------------------------------------------

  /** The first i bits of `note` are the genome's bits from `start` on. */
  predicate Collected(note: seq<bool>, genome: Genetic.Genome, start: nat, i: nat) {
    && |note| == 4 && i <= 4 && start + i <= |genome|
    && forall k :: 0 <= k < i ==> note[k] == genome[start + k]
  }

  /** Setting bit i of the group being read. */
  lemma NoteStep(note: seq<bool>, genome: Genetic.Genome, start: nat, i: nat)
    requires Collected(note, genome, start, i) && i < 4 && start + i < |genome|
    ensures Collected(note[i := genome[start + i]], genome, start, i + 1)
  {
  }

  /** Four bits set in order are the group. */
  lemma NoteComplete(note: seq<bool>, genome: Genetic.Genome, start: nat)
    requires Collected(note, genome, start, 4)
    ensures note == genome[start..start + 4]
  {
  }

  /** The bit counter of writeGenomeToMidiBytes wraps after the fourth bit. */
  lemma NextBitPosition(i: nat)
    requires i < 4
    ensures (i + 1) % 4 == if i == 3 then 0 else i + 1
  {
  }

  /** A length of 4m + i bits, i < 4, holds m whole groups. */
  lemma WholeGroups(length: nat, m: nat, i: nat)
    requires i < 4 && length == 4 * m + i
    ensures length / 4 == m
  {
  }

  /** A group whose four bits all lie in the genome is one of its groups. */
  lemma GroupInRange(length: nat, m: nat)
    requires 4 * m + 4 <= length
    ensures m < length / 4
  {
  }

  /** Four bits collected from position 4m on are group m of the genome. */
  lemma GroupAt(genome: Genetic.Genome, note: seq<bool>, m: nat)
    requires Collected(note, genome, 4 * m, 4)
    ensures m < |Groups(genome)| && Groups(genome)[m] == ToUlong(note)
  {
    NoteComplete(note, genome, 4 * m);
    GroupInRange(|genome|, m);
  }

  /** The groups of a prefix cut at a group boundary are a prefix of the groups. */
  lemma GroupsOfPrefix(genome: Genetic.Genome, m: nat)
    requires 4 * m <= |genome|
    ensures Groups(genome[..4 * m]) == Groups(genome)[..m]
  {
    var short := genome[..4 * m];
    forall k | 0 <= k < m ensures Groups(short)[k] == Groups(genome)[k] {
      assert short[4 * k..4 * k + 4] == genome[4 * k..4 * k + 4];
    }
  }

  /** The |genome| mod 4 trailing bits never reach the output. */
  lemma TrailingBitsIgnored(genome: Genetic.Genome)
    ensures Groups(genome[..|genome| - |genome| % 4]) == Groups(genome)
  {
    GroupsOfPrefix(genome, |genome| / 4);
    assert Groups(genome)[..|genome| / 4] == Groups(genome);
  }

  // ---------------------------------------------------------------------
  // The encoder
  // ---------------------------------------------------------------------

  /**
   * What one call of encodeGenomeToMidi appends to the buffer: the tempo
   * literal, the fixed block, the events and, unless scale.at threw, the
   * end-of-track event.
   */
  function Appended(scale: PitchTable, genome: Genetic.Genome): seq<byte> {
    var e := Emit(scale, Groups(genome));
    TempoLiteral + HeaderPartAfterTempo + e.bytes + (if e.failed then [] else TailPart)
  }

  lemma Assoc(x: seq<byte>, y: seq<byte>, z: seq<byte>)
    ensures x + y + z == x + (y + z)
  {
  }

  /** Pushing the first two bytes of an event and then its other six appends the whole event. */
  lemma NoteOnThenOff(before: seq<byte>, pitch: byte, velocity: byte)
    ensures before + [0x00, 0x90] + [pitch, velocity, 0x60, 0x80, pitch, 0x40] == before + Event(pitch, velocity)
  {
    assert [0x00, 0x90] + [pitch, velocity, 0x60, 0x80, pitch, 0x40] == Event(pitch, velocity);
    Assoc(before, [0x00, 0x90], [pitch, velocity, 0x60, 0x80, pitch, 0x40]);
  }

  lemma ConcatRegroup(x: seq<byte>, a: seq<byte>, b: seq<byte>, c: seq<byte>, d: seq<byte>)
    ensures x + a + b + c + d == x + (a + b + c + d)
  {
  }

  /** The buffer, and so the file, after the first call on a new encoder. */
  function FirstFile(scale: PitchTable, genome: Genetic.Genome): seq<byte> {
    InitialMidiBytes + Appended(scale, genome)
  }

  class MidiEncoder {
    const scale: PitchTable
    /** Computed at construction and never written to the buffer. */
    const tempoBytes: seq<byte>
    var midiBytes: seq<byte>

    constructor (scale: PitchTable, tempo: byte)
      ensures this.scale == scale && tempoBytes == [0, 0, tempo]
      ensures midiBytes == InitialMidiBytes
    {
      var bytes := DecimalTempoToBytes(tempo);
      this.scale := scale;
      tempoBytes := bytes;
      midiBytes := InitialMidiBytes;
    }

    /**
     * writeGenomeToMidiBytes: each completed group of four bits appends one
     * event to `midiBytes`, which is returned extended; `thrown` reports
     * scale.at's out_of_range, after which nothing more is appended.
     */
    method WriteGenomeToMidiBytes(genome: Genetic.Genome, midiBytes: seq<byte>) returns (out: seq<byte>, thrown: bool)
      ensures out == midiBytes + Emit(scale, Groups(genome)).bytes
      ensures thrown == Emit(scale, Groups(genome)).failed
    {
      var note := [false, false, false, false];
      var prevIdx: nat := 0;
      var i := 0;
      ghost var groups := Groups(genome);
      ghost var done := 0;
      ghost var e := Emit(scale, []);
      out := midiBytes;
      for n := 0 to |genome|
        invariant 0 <= i < 4 && n - i == 4 * done
        invariant Collected(note, genome, 4 * done, i)
        invariant e == Emit(scale, groups[..done])
        invariant !e.failed && out == midiBytes + e.bytes && prevIdx == e.prevIdx
      {
        NoteStep(note, genome, 4 * done, i);
        note := note[i := genome[n]];
        NextBitPosition(i);
        i := (i + 1) % 4;
        if i == 0 {
          GroupAt(genome, note, done);
          out, prevIdx, thrown := PushEvent(note, prevIdx, out, midiBytes, groups, done);
          if thrown {
            EmitFailureAbsorbs(scale, groups, done + 1);
            return;
          }
          e := Emit(scale, groups[..done + 1]);
          done := done + 1;
        }
      }
      WholeGroups(|genome|, done, i);
      assert groups[..done] == groups;
      thrown := false;
    }

    /**
     * The body of writeGenomeToMidiBytes for one completed group `note`:
     * resolve the scale index against `prevIdx`, then push the Note On and
     * Note Off, or only the first two bytes when scale.at throws. It
     * extends the encoding of the groups before it by one group.
     */
    method PushEvent(note: seq<bool>, prevIdx: nat, midiBytes: seq<byte>,
                     ghost start: seq<byte>, ghost groups: seq<Nibble>, ghost done: nat)
      returns (out: seq<byte>, nextIdx: nat, thrown: bool)
      requires |note| == 4 && done < |groups| && groups[done] == ToUlong(note)
      requires !Emit(scale, groups[..done]).failed && prevIdx == Emit(scale, groups[..done]).prevIdx
      requires midiBytes == start + Emit(scale, groups[..done]).bytes
      ensures var e := Emit(scale, groups[..done + 1]);
        out == start + e.bytes && thrown == e.failed && (!thrown ==> nextIdx == e.prevIdx)
    {
      EmitPrefixStep(scale, groups, done);
      ghost var e := Emit(scale, groups[..done]);
      ghost var r := Resolve(ToUlong(note), prevIdx);
      var velocity := DefaultVelocity;
      var idx: int := ToUlong(note);
      if idx == 0 {
        velocity := 0x00;
        idx := prevIdx;
      }
      if idx == 15 && prevIdx != 0 {
        if prevIdx != 0 {
          idx := prevIdx;
        } else {
          idx := 1; // root note; unreachable, the guard above already needs prevIdx != 0
        }
      }
      assert idx == r.idx && velocity == r.velocity;
      out := midiBytes + [0x00, 0x90];
      if !(1 <= idx <= |scale|) {
        Assoc(start, e.bytes, [0x00, 0x90]);
        return out, prevIdx, true;
      }
      var pitch := scale[idx - 1];
      var event := Event(pitch, velocity);
      var noteOff := [pitch, velocity, 0x60, 0x80, pitch, 0x40];
      out := out + noteOff;
      NoteOnThenOff(midiBytes, pitch, velocity);
      Assoc(start, e.bytes, event);
      nextIdx, thrown := idx, false;
    }

    /**
     * encodeGenomeToMidi without the file write: appends one encoding to the
     * encoder's buffer. The buffer is not cleared first; when scale.at
     * throws, the buffer keeps what was pushed before the throw.
     */
    method EncodeGenomeToMidi(genome: Genetic.Genome) returns (thrown: bool)
      modifies this`midiBytes
      ensures midiBytes == old(midiBytes) + Appended(scale, genome)
      ensures thrown <==> Emit(scale, Groups(genome)).failed
    {
      ghost var e := Emit(scale, Groups(genome));
      midiBytes := midiBytes + [0x03];
      midiBytes := midiBytes + [0x07];
      midiBytes := midiBytes + [0x0A];
      assert midiBytes == old(midiBytes) + TempoLiteral;
      PushAll(HeaderPartAfterTempo);
      var written;
      written, thrown := WriteGenomeToMidiBytes(genome, midiBytes);
      midiBytes := written;
      if thrown {
        ConcatRegroup(old(midiBytes), TempoLiteral, HeaderPartAfterTempo, e.bytes, []);
        return;
      }
      PushAll(TailPart);
      ConcatRegroup(old(midiBytes), TempoLiteral, HeaderPartAfterTempo, e.bytes, TailPart);
    }

    /** A range-for over `bytes` pushing each one onto the buffer. */
    method PushAll(bytes: seq<byte>)
      modifies this`midiBytes
      ensures midiBytes == old(midiBytes) + bytes
    {
      for k := 0 to |bytes|
        invariant midiBytes == old(midiBytes) + bytes[..k]
      {
        assert bytes[..k + 1] == bytes[..k] + [bytes[k]];
        midiBytes := midiBytes + [bytes[k]];
      }
      assert bytes[..|bytes|] == bytes;
    }
  }

  // ---------------------------------------------------------------------
  // The file image
  // ---------------------------------------------------------------------

  /** Number of 4-bit groups, hence of events, in a genome. */
  function EventCount(genome: Genetic.Genome): nat {
    |genome| / 4
  }

  /** The file has 66 fixed bytes and 8 bytes per event; a throw leaves 62 bytes plus the two pushed before it. */
  lemma FileLength(scale: PitchTable, genome: Genetic.Genome)
    ensures var e := Emit(scale, Groups(genome));
      |FirstFile(scale, genome)| == if e.failed then 64 else 66 + 8 * EventCount(genome)
  {
    EmitShape(scale, Groups(genome));
  }

  // Reading fixed fields out of the file. The file is cut into its parts
  // with the generic slicing lemmas below; the fields of each constant are
  // read off the constant alone.

  lemma SliceLeft(x: seq<byte>, y: seq<byte>, a: nat, b: nat)
    requires a <= b <= |x|
    ensures (x + y)[a..b] == x[a..b]
  {
  }

  lemma SliceRight(x: seq<byte>, y: seq<byte>, a: nat, b: nat)
    requires |x| <= a <= b <= |x| + |y|
    ensures (x + y)[a..b] == y[a - |x|..b - |x|]
  {
  }

  lemma SliceAcross(x: seq<byte>, y: seq<byte>, a: nat, b: nat)
    requires a <= |x| <= b <= |x| + |y|
    ensures (x + y)[a..b] == x[a..] + y[..b - |x|]
  {
  }

  /** The file cut into the initial bytes, the tempo literal, the 34-byte block and the rest. */
  lemma FileParts(scale: PitchTable, genome: Genetic.Genome)
    ensures var e := Emit(scale, Groups(genome));
      FirstFile(scale, genome)
        == InitialMidiBytes + (TempoLiteral + (HeaderPartAfterTempo + (e.bytes + (if e.failed then [] else TailPart))))
  {
    var e := Emit(scale, Groups(genome));
    var tail: seq<byte> := if e.failed then [] else TailPart;
    ConcatRegroup([], TempoLiteral, HeaderPartAfterTempo, e.bytes, tail);
    assert TempoLiteral + HeaderPartAfterTempo + e.bytes + tail
      == TempoLiteral + (HeaderPartAfterTempo + (e.bytes + tail));
  }

  lemma AsciiNames()
    ensures Ascii("MThd") == [0x4D, 0x54, 0x68, 0x64]
    ensures Ascii("MTrk") == [0x4D, 0x54, 0x72, 0x6B]
    ensures Ascii("Sampler 1") == [0x53, 0x61, 0x6D, 0x70, 0x6C, 0x65, 0x72, 0x20, 0x31]
  {
  }

  lemma InitialHeaderFields()
    ensures InitialMidiBytes[..4] == [0x4D, 0x54, 0x68, 0x64] && InitialMidiBytes[4..8] == [0, 0, 0, 6]
    ensures InitialMidiBytes[8..10] == [0, 1] && InitialMidiBytes[10..12] == [0, 2]
    ensures InitialMidiBytes[12..14] == [0, 0x60]
  {
    var m := InitialMidiBytes;
    var head := [0x4D, 0x54, 0x68, 0x64, 0x00, 0x00, 0x00, 0x06, 0x00, 0x01, 0x00, 0x02, 0x00, 0x60];
    assert m[..14] == head;
    assert m[..4] == head[..4];
    assert m[4..8] == head[4..8];
    assert m[8..10] == head[8..10];
    assert m[10..12] == head[10..12];
    assert m[12..14] == head[12..14];
  }

  lemma InitialTrackFields()
    ensures |InitialMidiBytes| == 25
    ensures InitialMidiBytes[14..18] == [0x4D, 0x54, 0x72, 0x6B]
    ensures InitialMidiBytes[18..22] == [0, 0, 0, 0x13]
    ensures InitialMidiBytes[22..] == [0x00, 0xFF, 0x51]
  {
    var m := InitialMidiBytes;
    assert m[14..] == [0x4D, 0x54, 0x72, 0x6B, 0x00, 0x00, 0x00, 0x13, 0x00, 0xFF, 0x51];
  }

  lemma BlockTrackOneFields()
    ensures HeaderPartAfterTempo[..1] == [0xE2]
    ensures HeaderPartAfterTempo[1..9] == [0x00, 0xFF, 0x58, 0x04, 0x04, 0x02, 0x18, 0x08]
  {
    var h := HeaderPartAfterTempo;
    assert h[..9] == [0xE2, 0x00, 0xFF, 0x58, 0x04, 0x04, 0x02, 0x18, 0x08];
  }

  lemma BlockTrackTwoFields()
    ensures HeaderPartAfterTempo[9..13] == TailPart
    ensures HeaderPartAfterTempo[13..17] == [0x4D, 0x54, 0x72, 0x6B]
    ensures HeaderPartAfterTempo[17..21] == [0, 0, 0x01, 0x11]
  {
    var h := HeaderPartAfterTempo;
    assert h[..21] == [0xE2, 0x00, 0xFF, 0x58, 0x04, 0x04, 0x02, 0x18, 0x08, 0x00, 0xFF, 0x2F,
      0x00, 0x4D, 0x54, 0x72, 0x6B, 0x00, 0x00, 0x01, 0x11];
    assert h[..13] == [0xE2, 0x00, 0xFF, 0x58, 0x04, 0x04, 0x02, 0x18, 0x08, 0x00, 0xFF, 0x2F, 0x00];
    assert h[..17] == [0xE2, 0x00, 0xFF, 0x58, 0x04, 0x04, 0x02, 0x18, 0x08, 0x00, 0xFF, 0x2F, 0x00, 0x4D, 0x54, 0x72, 0x6B];
  }

  lemma BlockNameFields()
    ensures HeaderPartAfterTempo[21..] == [0x00, 0xFF, 0x03, 0x09] + Ascii("Sampler 1")
  {
    AsciiNames();
    var h := HeaderPartAfterTempo;
    assert h[21..] == [0x00, 0xFF, 0x03, 0x09, 0x53, 0x61, 0x6D, 0x70, 0x6C, 0x65, 0x72, 0x20, 0x31];
  }

  lemma BigEndianOf2(a: byte, b: byte)
    ensures BigEndian([a, b]) == a * 256 + b
  {
    BigEndianSnoc([], a);
    BigEndianSnoc([a], b);
    assert [] + [a] == [a];
    assert [a] + [b] == [a, b];
  }

  lemma BigEndianOf3(a: byte, b: byte, c: byte)
    ensures BigEndian([a, b, c]) == (a * 256 + b) * 256 + c
  {
    BigEndianOf2(a, b);
    BigEndianSnoc([a, b], c);
    assert [a, b] + [c] == [a, b, c];
  }

  lemma BigEndianOf4(a: byte, b: byte, c: byte, d: byte)
    ensures BigEndian([a, b, c, d]) == ((a * 256 + b) * 256 + c) * 256 + d
  {
    BigEndianOf3(a, b, c);
    BigEndianSnoc([a, b, c], d);
    assert [a, b, c] + [d] == [a, b, c, d];
  }

  /** The header chunk: "MThd", length 6, format 1, two tracks, 96 ticks per quarter note. */
  lemma HeaderChunk(scale: PitchTable, genome: Genetic.Genome)
    ensures var file := FirstFile(scale, genome);
      && file[..4] == Ascii("MThd") && BigEndian(file[4..8]) == 6
      && BigEndian(file[8..10]) == 1 && BigEndian(file[10..12]) == 2 && BigEndian(file[12..14]) == 96
  {
    var rest := Appended(scale, genome);
    InitialHeaderFields();
    AsciiNames();
    SliceLeft(InitialMidiBytes, rest, 0, 4);
    SliceLeft(InitialMidiBytes, rest, 4, 8);
    SliceLeft(InitialMidiBytes, rest, 8, 10);
    SliceLeft(InitialMidiBytes, rest, 10, 12);
    SliceLeft(InitialMidiBytes, rest, 12, 14);
    BigEndianOf4(0, 0, 0, 6);
    BigEndianOf2(0, 1);
    BigEndianOf2(0, 2);
    BigEndianOf2(0, 0x60);
  }

  /**
   * Track 1: "MTrk" with declared length 19, holding the Set Tempo event
   * (461538 microseconds per quarter note), the 4/4 time signature and the
   * end-of-track event, which ends exactly where the declared length
   * ends; track 2's "MTrk" follows immediately.
   */
  lemma FirstTrack(scale: PitchTable, genome: Genetic.Genome)
    ensures var file := FirstFile(scale, genome);
      && file[14..18] == Ascii("MTrk") && BigEndian(file[18..22]) == 19
      && file[22..26] == [0x00, 0xFF, 0x51, 0x03] && BigEndian(file[26..29]) == 461538
      && file[29..37] == [0x00, 0xFF, 0x58, 0x04, 0x04, 0x02, 0x18, 0x08]
      && file[22 + 19 - 4..22 + 19] == TailPart
      && file[22 + 19..22 + 23] == Ascii("MTrk")
  {
    var e := Emit(scale, Groups(genome));
    FileParts(scale, genome);
    FirstTrackBefore(e.bytes + (if e.failed then [] else TailPart));
  }

  /** The first track does not depend on what follows the second track's header. */
  lemma FirstTrackBefore(rest: seq<byte>)
    ensures var file := InitialMidiBytes + (TempoLiteral + (HeaderPartAfterTempo + rest));
      && file[14..18] == Ascii("MTrk") && BigEndian(file[18..22]) == 19
      && file[22..26] == [0x00, 0xFF, 0x51, 0x03] && BigEndian(file[26..29]) == 461538
      && file[29..37] == [0x00, 0xFF, 0x58, 0x04, 0x04, 0x02, 0x18, 0x08]
      && file[22 + 19 - 4..22 + 19] == TailPart
      && file[22 + 19..22 + 23] == Ascii("MTrk")
  {
    TrackOneHeadBefore(rest);
    TrackOneEventsBefore(rest);
  }

  /** Bytes 14..29: "MTrk", the declared length 19 and the Set Tempo event. */
  lemma TrackOneHeadBefore(rest: seq<byte>)
    ensures var file := InitialMidiBytes + (TempoLiteral + (HeaderPartAfterTempo + rest));
      && file[14..18] == Ascii("MTrk") && BigEndian(file[18..22]) == 19
      && file[22..26] == [0x00, 0xFF, 0x51, 0x03] && BigEndian(file[26..29]) == 461538
  {
    var appended := TempoLiteral + (HeaderPartAfterTempo + rest);
    InitialTrackFields();
    AsciiNames();
    SliceLeft(InitialMidiBytes, appended, 14, 18);
    SliceLeft(InitialMidiBytes, appended, 18, 22);
    BigEndianOf4(0, 0, 0, 0x13);
    TempoEventBefore(rest);
  }

  /** Bytes 22..29: the Set Tempo event and its three bytes of microseconds per quarter note. */
  lemma TempoEventBefore(rest: seq<byte>)
    ensures var file := InitialMidiBytes + (TempoLiteral + (HeaderPartAfterTempo + rest));
      && file[22..26] == [0x00, 0xFF, 0x51, 0x03] && BigEndian(file[26..29]) == 461538
  {
    var block := HeaderPartAfterTempo + rest;
    var appended := TempoLiteral + block;
    InitialTrackFields();
    BlockTrackOneFields();
    SliceAcross(InitialMidiBytes, appended, 22, 26);
    SliceLeft(TempoLiteral, block, 0, 1);
    assert [0x00, 0xFF, 0x51] + TempoLiteral[..1] == [0x00, 0xFF, 0x51, 0x03];
    SliceRight(InitialMidiBytes, appended, 26, 29);
    SliceAcross(TempoLiteral, block, 1, 4);
    SliceLeft(HeaderPartAfterTempo, rest, 0, 1);
    assert TempoLiteral[1..] + [0xE2] == [0x07, 0x0A, 0xE2];
    BigEndianOf3(0x07, 0x0A, 0xE2);
  }

  /** Bytes 29..45: the time signature, the end-of-track event and track 2's "MTrk". */
  lemma TrackOneEventsBefore(rest: seq<byte>)
    ensures var file := InitialMidiBytes + (TempoLiteral + (HeaderPartAfterTempo + rest));
      && file[29..37] == [0x00, 0xFF, 0x58, 0x04, 0x04, 0x02, 0x18, 0x08]
      && file[22 + 19 - 4..22 + 19] == TailPart
      && file[22 + 19..22 + 23] == Ascii("MTrk")
  {
    var block := HeaderPartAfterTempo + rest;
    var appended := TempoLiteral + block;
    BlockTrackOneFields();
    BlockTrackTwoFields();
    AsciiNames();
    SliceRight(InitialMidiBytes, appended, 29, 37);
    SliceRight(TempoLiteral, block, 4, 12);
    SliceLeft(HeaderPartAfterTempo, rest, 1, 9);
    SliceRight(InitialMidiBytes, appended, 37, 41);
    SliceRight(TempoLiteral, block, 12, 16);
    SliceLeft(HeaderPartAfterTempo, rest, 9, 13);
    SliceRight(InitialMidiBytes, appended, 41, 45);
    SliceRight(TempoLiteral, block, 16, 20);
    SliceLeft(HeaderPartAfterTempo, rest, 13, 17);
  }

  /** Bytes 45..62: the declared length of track 2 and its name event. */
  lemma SecondTrackHead(scale: PitchTable, genome: Genetic.Genome)
    ensures var file := FirstFile(scale, genome);
      && file[45..49] == [0, 0, 0x01, 0x11]
      && file[49..62] == [0x00, 0xFF, 0x03, 0x09] + Ascii("Sampler 1")
  {
    var e := Emit(scale, Groups(genome));
    FileParts(scale, genome);
    SecondTrackHeadBefore(e.bytes + (if e.failed then [] else TailPart));
  }

  /** The head of the second track does not depend on the events that follow it. */
  lemma SecondTrackHeadBefore(rest: seq<byte>)
    ensures var file := InitialMidiBytes + (TempoLiteral + (HeaderPartAfterTempo + rest));
      && file[45..49] == [0, 0, 0x01, 0x11]
      && file[49..62] == [0x00, 0xFF, 0x03, 0x09] + Ascii("Sampler 1")
  {
    var block := HeaderPartAfterTempo + rest;
    var appended := TempoLiteral + block;
    BlockTrackTwoFields();
    BlockNameFields();
    AsciiNames();
    SliceRight(InitialMidiBytes, appended, 45, 49);
    SliceRight(TempoLiteral, block, 20, 24);
    SliceLeft(HeaderPartAfterTempo, rest, 17, 21);
    SliceRight(InitialMidiBytes, appended, 49, 62);
    SliceRight(TempoLiteral, block, 24, 37);
    SliceLeft(HeaderPartAfterTempo, rest, 21, 34);
    assert HeaderPartAfterTempo[21..34] == HeaderPartAfterTempo[21..];
  }

  /** From byte 62 on: the events, then the end-of-track event unless scale.at threw. */
  lemma SecondTrackBody(scale: PitchTable, genome: Genetic.Genome)
    ensures var file := FirstFile(scale, genome); var e := Emit(scale, Groups(genome));
      && |file| == 62 + |e.bytes| + (if e.failed then 0 else 4)
      && file[62..62 + |e.bytes|] == e.bytes
      && (!e.failed ==> file[|file| - 4..] == TailPart)
  {
    FileParts(scale, genome);
    SecondTrackBodyOf(Emit(scale, Groups(genome)).bytes, Emit(scale, Groups(genome)).failed);
  }

  /** Whatever the events, they start at byte 62, and the end-of-track event ends the file unless the encoding threw. */
  lemma SecondTrackBodyOf(events: seq<byte>, failed: bool)
    ensures var file := InitialMidiBytes + (TempoLiteral + (HeaderPartAfterTempo + (events + (if failed then [] else TailPart))));
      && |file| == 62 + |events| + (if failed then 0 else 4)
      && file[62..62 + |events|] == events
      && (!failed ==> file[|file| - 4..] == TailPart)
  {
    var tail: seq<byte> := if failed then [] else TailPart;
    var rest := events + tail;
    var block := HeaderPartAfterTempo + rest;
    var appended := TempoLiteral + block;
    var file := InitialMidiBytes + appended;
    SliceRight(InitialMidiBytes, appended, 62, 62 + |events|);
    SliceRight(TempoLiteral, block, 37, 37 + |events|);
    SliceRight(HeaderPartAfterTempo, rest, 34, 34 + |events|);
    assert rest[..|events|] == events;
    SliceRight(InitialMidiBytes, appended, |file| - |tail|, |file|);
    SliceRight(TempoLiteral, block, |appended| - |tail|, |appended|);
    SliceRight(HeaderPartAfterTempo, rest, |block| - |tail|, |block|);
    SliceRight(events, tail, |rest| - |tail|, |rest|);
  }

  /**
   * Track 2 declares 273 bytes and starts with the name event "Sampler 1";
   * the events follow. The declared length is the real one (13 bytes of
   * name, 8 per event, 4 of end-of-track) exactly when the genome has 32
   * groups.
   */
  lemma SecondTrack(scale: PitchTable, genome: Genetic.Genome)
    ensures var file := FirstFile(scale, genome); var e := Emit(scale, Groups(genome));
      && BigEndian(file[45..49]) == 273
      && file[49..62] == [0x00, 0xFF, 0x03, 0x09] + Ascii("Sampler 1")
      && file[62..62 + |e.bytes|] == e.bytes
      && (!e.failed ==> file[|file| - 4..] == TailPart)
      && (!e.failed ==> (BigEndian(file[45..49]) == |file| - 49 <==> EventCount(genome) == 32))
  {
    SecondTrackHead(scale, genome);
    SecondTrackBody(scale, genome);
    BigEndianOf4(0, 0, 0x01, 0x11);
    EmitShape(scale, Groups(genome));
  }
}
