/** KMES events as they lie in a ring buffer (wire/event.go). */
module Events {
  import opened Wrappers
  import opened Bytes

  const SIZE_OFF := 0
  const HEADER_OFF := 4
  const TIMESTAMP_OFF := 8
  const SEQUENCE_OFF := 16
  const CPU_OFF := 24
  const ORIGIN_OFF := 26
  const EFFECTIVE_OFF := 27
  const TRUE_OFF := 43
  const PROCESS_OFF := 59
  const TYPE_LEN_OFF := 75
  const HEADER_BASE := 77

  /** An event as the producer emits it; `gap` is what a later header revision may put before the payload. */
  datatype Record = Record(timestamp: nat, sequence: nat, cpu: nat, origin: byte,
                           effective: Guid, trueToken: Guid, process: Guid,
                           kind: seq<byte>, gap: seq<byte>, payload: seq<byte>)

  function HeaderSize(r: Record): nat { HEADER_BASE + |r.kind| + |r.gap| }

  function Size(r: Record): nat { HeaderSize(r) + |r.payload| }

  /** A record whose every field fits its slot. */
  predicate Emittable(r: Record) {
    && r.timestamp < TWO_64 && r.sequence < TWO_64 && r.cpu < TWO_16
    && |r.kind| < TWO_16 && Size(r) < TWO_32
  }

  function FixedPart(r: Record): (b: seq<byte>)
    ensures |b| == HEADER_BASE
  {
    Le32(Size(r)) + Le32(HeaderSize(r)) + Le64(r.timestamp) + Le64(r.sequence) + Le16(r.cpu) + [r.origin]
    + r.effective + r.trueToken + r.process + Le16(|r.kind|)
  }

  /** The bytes of a record; a field too wide for its slot would be truncated. */
  function Encode(r: Record): (b: seq<byte>)
    ensures |b| == Size(r)
  {
    FixedPart(r) + r.kind + r.gap + r.payload
  }

  /** The scalar fields of an event and the extents of its type and payload. */
  datatype View = View(size: nat, header: nat, timestamp: nat, sequence: nat, cpu: nat, origin: byte, typeLen: nat)

  function ViewOf(r: Record): View {
    View(Size(r), HeaderSize(r), r.timestamp, r.sequence, r.cpu, r.origin, |r.kind|)
  }

  /** Whether sizes read from a header describe an event inside a buffer of `room` bytes. */
  predicate Structural(size: nat, header: nat, typeLen: nat, room: nat) {
    HEADER_BASE <= size <= room && HEADER_BASE <= header <= size && HEADER_BASE + typeLen <= header
  }

  function ReadView(buf: seq<byte>): (v: Option<View>)
    ensures v.Some? ==> Structural(v.value.size, v.value.header, v.value.typeLen, |buf|)
  {
    if |buf| < HEADER_BASE then None
    else
      var size, header, typeLen := Word32(buf), Word32(buf[HEADER_OFF..]), Word16(buf[TYPE_LEN_OFF..]);
      if !Structural(size, header, typeLen, |buf|) then None
      else Some(View(size, header, Word64(buf[TIMESTAMP_OFF..]), Word64(buf[SEQUENCE_OFF..]), Word16(buf[CPU_OFF..]),
                     buf[ORIGIN_OFF], typeLen))
  }

  /** A parsed event: the scalars and the contents of the slices. */
  datatype Event = Event(view: View, effective: Guid, trueToken: Guid, process: Guid,
                         kind: seq<byte>, payload: seq<byte>)

  /** ParseEvent: an event at the start of `buf`, whatever follows it. */
  function ParseEvent(buf: seq<byte>): Option<Event> {
    var v :- ReadView(buf);
    Some(Event(v, buf[EFFECTIVE_OFF..TRUE_OFF], buf[TRUE_OFF..PROCESS_OFF], buf[PROCESS_OFF..TYPE_LEN_OFF],
               buf[HEADER_BASE..HEADER_BASE + v.typeLen], buf[v.header..v.size]))
  }

  function EventOf(r: Record): Event {
    Event(ViewOf(r), r.effective, r.trueToken, r.process, r.kind, r.payload)
  }

  // --- the layout ------------------------------------------------------

  lemma ScalarsOfFixedPart(r: Record)
    requires Emittable(r)
    ensures var b := FixedPart(r);
            && b[..4] == Le32(Size(r)) && b[4..8] == Le32(HeaderSize(r))
            && b[8..16] == Le64(r.timestamp) && b[16..24] == Le64(r.sequence)
            && b[24..26] == Le16(r.cpu) && b[26] == r.origin && b[75..77] == Le16(|r.kind|)
            && b[27..43] == r.effective && b[43..59] == r.trueToken && b[59..75] == r.process
  {
  }

  lemma Word16At(b: seq<byte>, n: nat)
    requires n < TWO_16 && |b| >= 2 && b[..2] == Le16(n)
    ensures Word16(b) == n
  {
    Word16OfLe16(n, b[2..]);
    assert b == b[..2] + b[2..];
  }

  lemma Word32At(b: seq<byte>, n: nat)
    requires n < TWO_32 && |b| >= 4 && b[..4] == Le32(n)
    ensures Word32(b) == n
  {
    Word32OfLe32(n, b[4..]);
    assert b == b[..4] + b[4..];
  }

  lemma Word64At(b: seq<byte>, n: nat)
    requires n < TWO_64 && |b| >= 8 && b[..8] == Le64(n)
    ensures Word64(b) == n
  {
    Word64OfLe64(n, b[8..]);
    assert b == b[..8] + b[8..];
  }

  /** Where each scalar lies in an emitted record. */
  lemma FieldsOfEncoded(r: Record)
    requires Emittable(r)
    ensures var b := Encode(r);
            && |b| >= HEADER_BASE
            && Word32(b[SIZE_OFF..SIZE_OFF + 4]) == Size(r) && Word32(b[HEADER_OFF..HEADER_OFF + 4]) == HeaderSize(r)
            && Word64(b[TIMESTAMP_OFF..TIMESTAMP_OFF + 8]) == r.timestamp
            && Word64(b[SEQUENCE_OFF..SEQUENCE_OFF + 8]) == r.sequence
            && Word16(b[CPU_OFF..CPU_OFF + 2]) == r.cpu && b[ORIGIN_OFF] == r.origin
            && Word16(b[TYPE_LEN_OFF..TYPE_LEN_OFF + 2]) == |r.kind|
            && b[EFFECTIVE_OFF..TRUE_OFF] == r.effective && b[TRUE_OFF..PROCESS_OFF] == r.trueToken
            && b[PROCESS_OFF..TYPE_LEN_OFF] == r.process
  {
    var b, fixed := Encode(r), FixedPart(r);
    assert b[..HEADER_BASE] == fixed;
    ScalarsOfFixedPart(r);
    hide FixedPart, Encode, Le16, Le32, Le64, Word16, Word32, Word64;
    assert b[0..4] == fixed[..4] && b[4..8] == fixed[4..8] && b[8..16] == fixed[8..16] && b[16..24] == fixed[16..24];
    assert b[24..26] == fixed[24..26] && b[26] == fixed[26] && b[75..77] == fixed[75..77];
    assert b[27..43] == fixed[27..43] && b[43..59] == fixed[43..59] && b[59..75] == fixed[59..75];
    Word32At(b[0..4], Size(r));
    Word32At(b[4..8], HeaderSize(r));
    Word64At(b[8..16], r.timestamp);
    Word64At(b[16..24], r.sequence);
    Word16At(b[24..26], r.cpu);
    Word16At(b[75..77], |r.kind|);
  }

  lemma ViewOfEncoded(r: Record, rest: seq<byte>)
    requires Emittable(r)
    ensures ReadView(Encode(r) + rest) == Some(ViewOf(r))
  {
    var b := Encode(r) + rest;
    var fixed := FixedPart(r);
    assert b[..HEADER_BASE] == fixed;
    ScalarsOfFixedPart(r);
    hide FixedPart, Encode, Le16, Le32, Le64, Word16, Word32, Word64;
    assert b[..4] == fixed[..4] && b[HEADER_OFF..][..4] == fixed[4..8];
    assert b[TIMESTAMP_OFF..][..8] == fixed[8..16] && b[SEQUENCE_OFF..][..8] == fixed[16..24];
    assert b[CPU_OFF..][..2] == fixed[24..26] && b[ORIGIN_OFF] == fixed[26];
    assert b[TYPE_LEN_OFF..][..2] == fixed[75..77];
    Word32At(b, Size(r));
    Word32At(b[HEADER_OFF..], HeaderSize(r));
    Word64At(b[TIMESTAMP_OFF..], r.timestamp);
    Word64At(b[SEQUENCE_OFF..], r.sequence);
    Word16At(b[CPU_OFF..], r.cpu);
    Word16At(b[TYPE_LEN_OFF..], |r.kind|);
  }

  /** An emitted record is parsed field for field, whatever lies beyond it in the buffer. */
  lemma ParseOfEncoded(r: Record, rest: seq<byte>)
    requires Emittable(r)
    ensures ParseEvent(Encode(r) + rest) == Some(EventOf(r))
  {
    var b := Encode(r) + rest;
    ViewOfEncoded(r, rest);
    ScalarsOfFixedPart(r);
    var fixed := FixedPart(r);
    assert b == fixed + r.kind + r.gap + r.payload + rest;
    hide FixedPart, Encode, ReadView;
    assert b[EFFECTIVE_OFF..TRUE_OFF] == fixed[27..43] && b[TRUE_OFF..PROCESS_OFF] == fixed[43..59];
    assert b[PROCESS_OFF..TYPE_LEN_OFF] == fixed[59..75];
    assert b[HEADER_BASE..HEADER_BASE + |r.kind|] == r.kind;
    assert b[HeaderSize(r)..Size(r)] == r.payload;
  }

  lemma SlicesOfEncoded(r: Record)
    requires Emittable(r)
    ensures var b := Encode(r);
            && b[EFFECTIVE_OFF..TRUE_OFF] == r.effective && b[TRUE_OFF..PROCESS_OFF] == r.trueToken
            && b[PROCESS_OFF..TYPE_LEN_OFF] == r.process
            && b[HEADER_BASE..HEADER_BASE + |r.kind|] == r.kind && b[HeaderSize(r)..Size(r)] == r.payload
  {
    ParseOfEncoded(r, []);
    assert Encode(r) + [] == Encode(r);
  }

  /** Whatever is accepted is an emitted record: nothing else parses. */
  lemma EncodedOfParse(buf: seq<byte>) returns (r: Record)
    requires ParseEvent(buf).Some?
    ensures Emittable(r) && Encode(r) <= buf && EventOf(r) == ParseEvent(buf).value
  {
    var v := ReadView(buf).value;
    r := Record(v.timestamp, v.sequence, v.cpu, v.origin, buf[EFFECTIVE_OFF..TRUE_OFF], buf[TRUE_OFF..PROCESS_OFF],
                buf[PROCESS_OFF..TYPE_LEN_OFF], buf[HEADER_BASE..HEADER_BASE + v.typeLen],
                buf[HEADER_BASE + v.typeLen..v.header], buf[v.header..v.size]);
    FixedOfView(buf, r);
    hide FixedPart, ReadView;
    assert buf[..v.size] == buf[..HEADER_BASE] + r.kind + r.gap + r.payload;
  }

  lemma Stretches(buf: seq<byte>, off: nat, n: nat)
    requires off + n <= |buf|
    ensures buf[..off] + buf[off..][..n] == buf[..off + n] && buf[off..][..n] == buf[off..off + n]
  {
  }

  lemma FixedOfView(buf: seq<byte>, r: Record)
    requires Emittable(r) && |buf| >= HEADER_BASE
    requires ReadView(buf) == Some(ViewOf(r))
    requires r.effective == buf[EFFECTIVE_OFF..TRUE_OFF] && r.trueToken == buf[TRUE_OFF..PROCESS_OFF]
    requires r.process == buf[PROCESS_OFF..TYPE_LEN_OFF]
    ensures FixedPart(r) == buf[..HEADER_BASE]
  {
    hide Le16, Le32, Le64, Word16, Word32, Word64;
    Le32OfWord32(buf);
    Le32OfWord32(buf[HEADER_OFF..]);
    Le64OfWord64(buf[TIMESTAMP_OFF..]);
    Le64OfWord64(buf[SEQUENCE_OFF..]);
    Le16OfWord16(buf[CPU_OFF..]);
    Le16OfWord16(buf[TYPE_LEN_OFF..]);
    Stretches(buf, HEADER_OFF, 4);
    Stretches(buf, TIMESTAMP_OFF, 8);
    Stretches(buf, SEQUENCE_OFF, 8);
    Stretches(buf, CPU_OFF, 2);
    assert buf[..ORIGIN_OFF] + [buf[ORIGIN_OFF]] == buf[..EFFECTIVE_OFF];
    Stretches(buf, EFFECTIVE_OFF, 16);
    Stretches(buf, TRUE_OFF, 16);
    Stretches(buf, PROCESS_OFF, 16);
    Stretches(buf, TYPE_LEN_OFF, 2);
  }
}
