/**
 Registry watch records (registry/watch.go), and the quicker look at them that the event policy takes
 (classifyRecords of event/policy.go): two parsers of one stream.
 */
module Watch {
  import opened Wrappers
  import opened Bytes

  const MIN_SIZE := 8
  const NAME_OFF := 8
  /** The record type of a deleted key, which uapi defines; only its being one fixed code matters here. */
  const KEY_DELETED := 6

  /** A change record; no path is a direct event, and a path lists the keys down to the one changed. */
  datatype Record = Record(kind: nat, name: seq<byte>, path: Option<seq<seq<byte>>>)

  datatype Event = Event(kind: nat, name: seq<byte>, path: seq<seq<byte>>)

  function EventOf(r: Record): Event {
    Event(r.kind, r.name, match r.path case None => [] case Some(path) => path)
  }

  /** An event that says the watched key is gone. */
  predicate SaysGone(e: Event) { e.kind == KEY_DELETED && e.path == [] }

  function Components(path: seq<seq<byte>>): seq<byte> {
    if path == [] then [] else Le16(|path[0]|) + path[0] + Components(path[1..])
  }

  function PathBytes(r: Record): seq<byte> {
    match r.path
    case None => []
    case Some(path) => Le16(|path|) + Components(path)
  }

  function Length(r: Record): nat { MIN_SIZE + |r.name| + |PathBytes(r)| }

  /** The kernel's bytes of a record. */
  function Encode(r: Record): (b: seq<byte>)
    ensures |b| == Length(r)
  {
    Le32(Length(r)) + Le16(r.kind) + Le16(|r.name|) + r.name + PathBytes(r)
  }

  predicate Encodable(r: Record) {
    && r.kind < TWO_16 && |r.name| < TWO_16 && Length(r) < TWO_32
    && match r.path
       case None => true
       case Some(path) => |path| < TWO_16 && forall i :: 0 <= i < |path| ==> |path[i]| < TWO_16
  }

  function EncodeAll(rs: seq<Record>): seq<byte> {
    if rs == [] then [] else Encode(rs[0]) + EncodeAll(rs[1..])
  }

  // --- framing ---------------------------------------------------------

  /** The records of a buffer, cut by their total length, and whether they fill it. */
  datatype Framing = Framing(records: seq<seq<byte>>, whole: bool)

  /** The length of the record a buffer starts with; None when it holds no whole record. */
  function FirstLength(buf: seq<byte>): (n: Option<nat>)
    ensures n.Some? ==> MIN_SIZE <= n.value <= |buf|
  {
    if |buf| < MIN_SIZE then None
    else
      var total := Word32(buf);
      if total < MIN_SIZE || total > |buf| then None else Some(total)
  }

  predicate Framed(records: seq<seq<byte>>) {
    forall i :: 0 <= i < |records| ==> |records[i]| >= MIN_SIZE
  }

  function Frame(buf: seq<byte>): (f: Framing)
    ensures Framed(f.records)
    ensures f.whole && f.records == [] ==> buf == []
  {
    if buf == [] then Framing([], true)
    else
      match FirstLength(buf)
      case None => Framing([], false)
      case Some(n) =>
        var rest := Frame(buf[n..]);
        Framing([buf[..n]] + rest.records, rest.whole)
  }

  // --- the record parser -----------------------------------------------

  /** Up to `depth` path components; a component that does not fit ends the path. */
  function PathOf(b: seq<byte>, depth: nat): seq<seq<byte>> {
    if depth == 0 || |b| < 2 || 2 + Word16(b) > |b| then []
    else [b[2..2 + Word16(b)]] + PathOf(b[2 + Word16(b)..], depth - 1)
  }

  /** The event of one framed record; a name that does not fit is left empty and the path sought in its place. */
  function Parse(rec: seq<byte>): Event
    requires |rec| >= MIN_SIZE
  {
    var n := Word16(rec[6..]);
    var fits := NAME_OFF + n <= |rec|;
    var p := if fits then NAME_OFF + n else NAME_OFF;
    Event(Word16(rec[4..]), if fits then rec[NAME_OFF..p] else [],
          if p + 2 <= |rec| then PathOf(rec[p + 2..], Word16(rec[p..])) else [])
  }

  function Events(records: seq<seq<byte>>): (es: seq<Event>)
    requires Framed(records)
    ensures |es| == |records|
  {
    if records == [] then [] else [Parse(records[0])] + Events(records[1..])
  }

  lemma {:induction false} EventsAppend(a: seq<seq<byte>>, r: seq<byte>)
    requires Framed(a) && |r| >= MIN_SIZE
    ensures Events(a + [r]) == Events(a) + [Parse(r)]
  {
    if a == [] {
      assert (a + [r])[1..] == [];
    } else {
      EventsAppend(a[1..], r);
      assert (a + [r])[1..] == a[1..] + [r];
    }
  }

  /** parseEvents, with the offset at which it stopped. */
  method ParseEvents(buf: seq<byte>) returns (out: seq<Event>, stopped: nat)
    ensures out == Events(Frame(buf).records)
    ensures stopped <= |buf| && (stopped == |buf| <==> Frame(buf).whole)
  {
    hide Frame, Events, Parse, Word32, Word16;
    out := [];
    NoEvents();
    var off: nat := 0;
    ghost var done: seq<seq<byte>> := [];
    assert buf[0..] == buf && done + Frame(buf).records == Frame(buf).records;
    while off + MIN_SIZE <= |buf|
      invariant off <= |buf|
      invariant Framed(done)
      invariant Frame(buf).records == done + Frame(buf[off..]).records && Frame(buf).whole == Frame(buf[off..]).whole
      invariant out == Events(done)
      decreases |buf| - off
    {
      var total := Word32(buf[off..]);
      if total < MIN_SIZE || off + total > |buf| {
        break;
      }
      FrameStep(buf, off, total, done);
      var ev := ParseRecord(buf[off..off + total]);
      EventsAppend(done, buf[off..off + total]);
      done := done + [buf[off..off + total]];
      out := out + [ev];
      off := off + total;
    }
    FrameEnd(buf[off..]);
    assert done + [] == done;
    stopped := off;
  }

  lemma NoEvents()
    ensures Events([]) == []
  {
  }

  lemma FrameEnd(buf: seq<byte>)
    requires FirstLength(buf) == None
    ensures Frame(buf) == Framing([], buf == [])
  {
  }

  lemma FrameStep(buf: seq<byte>, off: nat, total: nat, done: seq<seq<byte>>)
    requires off <= |buf| && FirstLength(buf[off..]) == Some(total)
    ensures done + Frame(buf[off..]).records == done + [buf[off..off + total]] + Frame(buf[off + total..]).records
    ensures Frame(buf[off..]).whole == Frame(buf[off + total..]).whole
  {
    assert buf[off..][..total] == buf[off..off + total] && buf[off..][total..] == buf[off + total..];
    var rest := Frame(buf[off + total..]).records;
    assert done + ([buf[off..off + total]] + rest) == done + [buf[off..off + total]] + rest;
  }

  /** The body of parseEvents' loop, with its inner loop over the path. */
  method ParseRecord(rec: seq<byte>) returns (ev: Event)
    requires |rec| >= MIN_SIZE
    ensures ev == Parse(rec)
  {
    var kind := Word16(rec[4..]);
    var nameLen := Word16(rec[6..]);
    var name: seq<byte> := [];
    var path: seq<seq<byte>> := [];
    var p := NAME_OFF;
    if p + nameLen <= |rec| {
      name := rec[p..p + nameLen];
      p := p + nameLen;
    }
    if p + 2 <= |rec| {
      var depth := Word16(rec[p..]);
      path := ParsePath(rec, p + 2, depth);
    }
    ev := Event(kind, name, path);
  }

  method ParsePath(rec: seq<byte>, start: nat, depth: nat) returns (path: seq<seq<byte>>)
    requires start <= |rec|
    ensures path == PathOf(rec[start..], depth)
  {
    hide PathOf;
    path := [];
    var p := start;
    assert path + PathOf(rec[p..], depth) == PathOf(rec[p..], depth);
    for i := 0 to depth
      invariant start <= p <= |rec|
      invariant PathOf(rec[start..], depth) == path + PathOf(rec[p..], depth - i)
    {
      PathStep(rec, p, depth - i, path);
      if p + 2 > |rec| {
        return;
      }
      var clen := Word16(rec[p..]);
      if p + 2 + clen > |rec| {
        return;
      }
      path := path + [rec[p + 2..p + 2 + clen]];
      p := p + 2 + clen;
    }
    PathEnd(rec[p..], path);
  }

  lemma PathEnd(b: seq<byte>, path: seq<seq<byte>>)
    ensures path + PathOf(b, 0) == path
  {
  }

  lemma PathStep(rec: seq<byte>, p: nat, depth: nat, path: seq<seq<byte>>)
    requires p <= |rec| && depth > 0
    ensures p + 2 > |rec| || p + 2 + Word16(rec[p..]) > |rec| ==> path + PathOf(rec[p..], depth) == path
    ensures p + 2 <= |rec| && p + 2 + Word16(rec[p..]) <= |rec| ==>
              var q := p + 2 + Word16(rec[p..]);
              path + PathOf(rec[p..], depth) == path + [rec[p + 2..q]] + PathOf(rec[q..], depth - 1)
  {
    hide Word16;
    if p + 2 <= |rec| && p + 2 + Word16(rec[p..]) <= |rec| {
      var q := p + 2 + Word16(rec[p..]);
      assert rec[p..][2..q - p] == rec[p + 2..q] && rec[p..][q - p..] == rec[q..];
      assert path + ([rec[p + 2..q]] + PathOf(rec[q..], depth - 1)) == path + [rec[p + 2..q]] + PathOf(rec[q..], depth - 1);
    }
  }

  // --- the policy's classifier -----------------------------------------

  /** A KEY_DELETED of the watched key itself: bare, or with a path of depth 0. */
  predicate OwnDeletion(rec: seq<byte>)
    requires |rec| >= MIN_SIZE
  {
    && Word16(rec[4..]) == KEY_DELETED
    && var at := NAME_OFF + Word16(rec[6..]);
       at + 2 > |rec| || Word16(rec[at..]) == 0
  }

  predicate AnyOwnDeletion(records: seq<seq<byte>>)
    requires Framed(records)
  {
    exists i :: 0 <= i < |records| && OwnDeletion(records[i])
  }

  /** What a batch of records tells the policy. */
  datatype News = News(changed: bool, gone: bool)

  function NewsOf(buf: seq<byte>): News {
    var f := Frame(buf);
    News(f.records != [], !f.whole || AnyOwnDeletion(f.records))
  }

  /** classifyRecords. */
  method ClassifyRecords(buf: seq<byte>) returns (n: News)
    ensures n == NewsOf(buf)
  {
    hide Frame, AnyOwnDeletion;
    n := News(false, false);
    var off: nat := 0;
    ghost var done: seq<seq<byte>> := [];
    NoOwnDeletion();
    assert buf[0..] == buf && done + Frame(buf).records == Frame(buf).records;
    while off < |buf|
      invariant off <= |buf|
      invariant Framed(done)
      invariant Frame(buf).records == done + Frame(buf[off..]).records && Frame(buf).whole == Frame(buf[off..]).whole
      invariant n == News(done != [], AnyOwnDeletion(done))
      decreases |buf| - off
    {
      var rec := buf[off..];
      assert done + [] == done;
      if |rec| < MIN_SIZE {
        FrameEnd(rec);
        return n.(gone := true);
      }
      var total := Word32(rec);
      if total < MIN_SIZE || total > |rec| {
        FrameEnd(rec);
        return n.(gone := true);
      }
      FrameStep(buf, off, total, done);
      rec := rec[..total];
      assert rec == buf[off..off + total];
      n := n.(changed := true);
      if Word16(rec[4..]) == KEY_DELETED {
        var at := NAME_OFF + Word16(rec[6..]);
        if at + 2 > |rec| || Word16(rec[at..]) == 0 {
          n := n.(gone := true);
        }
      }
      OwnDeletionOfMore(done, rec);
      done := done + [rec];
      off := off + total;
    }
    FrameEnd(buf[off..]);
    assert done + [] == done;
  }

  lemma NoOwnDeletion()
    ensures !AnyOwnDeletion([])
  {
  }

  lemma OwnDeletionOfMore(done: seq<seq<byte>>, rec: seq<byte>)
    requires Framed(done) && |rec| >= MIN_SIZE
    ensures AnyOwnDeletion(done + [rec]) <==> AnyOwnDeletion(done) || OwnDeletion(rec)
  {
    var more := done + [rec];
    assert more[|done|] == rec;
    if AnyOwnDeletion(done) {
      var i :| 0 <= i < |done| && OwnDeletion(done[i]);
      assert more[i] == done[i];
    }
  }

  // --- well-formed streams ---------------------------------------------

  lemma {:induction false} PathOfComponents(path: seq<seq<byte>>)
    requires forall i :: 0 <= i < |path| ==> |path[i]| < TWO_16
    ensures PathOf(Components(path), |path|) == path
  {
    hide Le16, Word16;
    if path != [] {
      var rest := Components(path[1..]);
      PathOfComponents(path[1..]);
      Word16OfLe16(|path[0]|, path[0] + rest);
      var b := Components(path);
      assert b == Le16(|path[0]|) + (path[0] + rest);
      assert b[2..2 + |path[0]|] == path[0] && b[2 + |path[0]|..] == rest;
      assert path == [path[0]] + path[1..];
    }
  }

  /** The fixed fields of an encoded record. */
  lemma Fields(r: Record)
    requires Encodable(r)
    ensures var b := Encode(r);
            && Word16(b[4..]) == r.kind && Word16(b[6..]) == |r.name|
            && b[NAME_OFF..NAME_OFF + |r.name|] == r.name && b[NAME_OFF + |r.name|..] == PathBytes(r)
  {
    hide Le16, Le32, Word16, PathBytes;
    var b := Encode(r);
    var tail := r.name + PathBytes(r);
    assert b == Le32(Length(r)) + (Le16(r.kind) + (Le16(|r.name|) + tail));
    assert b[4..] == Le16(r.kind) + (Le16(|r.name|) + tail);
    assert b[6..] == Le16(|r.name|) + tail;
    assert b[8..] == tail && b[8 + |r.name|..] == PathBytes(r);
    Word16OfLe16(r.kind, Le16(|r.name|) + tail);
    Word16OfLe16(|r.name|, tail);
  }

  lemma ParseOfEncoded(r: Record)
    requires Encodable(r)
    ensures Parse(Encode(r)) == EventOf(r)
    ensures OwnDeletion(Encode(r)) <==> r.kind == KEY_DELETED && EventOf(r).path == []
  {
    Fields(r);
    hide Encode;
    var b, p := Encode(r), NAME_OFF + |r.name|;
    match r.path {
      case None =>
      case Some(path) =>
        Word16OfLe16(|path|, Components(path));
        PathOfComponents(path);
        assert b[p..][2..] == Components(path) == b[p + 2..];
    }
  }

  lemma FirstLengthOfEncoded(r: Record, rest: seq<byte>)
    requires Encodable(r)
    ensures FirstLength(Encode(r) + rest) == Some(Length(r))
  {
    hide Le16, Le32, Word32, PathBytes;
    var tail := Le16(r.kind) + Le16(|r.name|) + r.name + PathBytes(r) + rest;
    Word32OfLe32(Length(r), tail);
    assert Encode(r) + rest == Le32(Length(r)) + tail;
  }

  function Encodings(rs: seq<Record>): (bs: seq<seq<byte>>)
    ensures |bs| == |rs| && forall i :: 0 <= i < |rs| ==> bs[i] == Encode(rs[i])
  {
    if rs == [] then [] else [Encode(rs[0])] + Encodings(rs[1..])
  }

  /** A run of whole records is framed record by record. */
  lemma {:induction false} FrameOfEncoded(rs: seq<Record>)
    requires forall i :: 0 <= i < |rs| ==> Encodable(rs[i])
    ensures Frame(EncodeAll(rs)) == Framing(Encodings(rs), true)
  {
    if rs != [] {
      hide Encode, FirstLength;
      FrameOfEncoded(rs[1..]);
      var rest := EncodeAll(rs[1..]);
      FirstLengthOfEncoded(rs[0], rest);
      var b := Encode(rs[0]) + rest;
      assert b[..Length(rs[0])] == Encode(rs[0]) && b[Length(rs[0])..] == rest;
    }
  }

  function EventsOf(rs: seq<Record>): seq<Event> {
    if rs == [] then [] else [EventOf(rs[0])] + EventsOf(rs[1..])
  }

  lemma {:induction false} EventsOfEncodings(rs: seq<Record>)
    requires forall i :: 0 <= i < |rs| ==> Encodable(rs[i])
    ensures Events(Encodings(rs)) == EventsOf(rs)
  {
    if rs != [] {
      hide Encode, Parse;
      EventsOfEncodings(rs[1..]);
      ParseOfEncoded(rs[0]);
      assert Encodings(rs)[1..] == Encodings(rs[1..]);
    }
  }

  predicate AnyDeletion(rs: seq<Record>) {
    exists i :: 0 <= i < |rs| && IsDeletion(rs[i])
  }

  /** A record saying that the watched key is gone. */
  predicate IsDeletion(r: Record) {
    SaysGone(EventOf(r))
  }

  /**
   The two parsers agree on whole records: one returns them all, and the other reports a change exactly
   when there is one and a loss exactly when one of them is the deletion of the watched key itself.
   */
  lemma ParsersAgree(rs: seq<Record>)
    requires forall i :: 0 <= i < |rs| ==> Encodable(rs[i])
    ensures Events(Frame(EncodeAll(rs)).records) == EventsOf(rs) && Frame(EncodeAll(rs)).whole
    ensures NewsOf(EncodeAll(rs)) == News(rs != [], AnyDeletion(rs))
  {
    FrameOfEncoded(rs);
    EventsOfEncodings(rs);
    DeletionsAgree(rs);
    hide Frame, Encodings, EncodeAll, AnyDeletion, AnyOwnDeletion;
  }

  lemma DeletionsAgree(rs: seq<Record>)
    requires forall i :: 0 <= i < |rs| ==> Encodable(rs[i])
    ensures Framed(Encodings(rs)) && (AnyOwnDeletion(Encodings(rs)) <==> AnyDeletion(rs))
  {
    hide Encode, Encodable, OwnDeletion, IsDeletion;
    forall i | 0 <= i < |rs|
      ensures OwnDeletion(Encodings(rs)[i]) <==> IsDeletion(rs[i])
    {
      DeletionAgrees(rs[i]);
    }
    if AnyDeletion(rs) {
      var i :| 0 <= i < |rs| && IsDeletion(rs[i]);
      assert OwnDeletion(Encodings(rs)[i]);
    }
  }

  lemma DeletionAgrees(r: Record)
    requires Encodable(r)
    ensures OwnDeletion(Encode(r)) <==> IsDeletion(r)
  {
    ParseOfEncoded(r);
  }

  // --- arbitrary bytes -------------------------------------------------

  predicate AnySaysGone(es: seq<Event>) {
    exists i :: 0 <= i < |es| && SaysGone(es[i])
  }

  predicate WholeComponent(b: seq<byte>) { |b| >= 2 && 2 + Word16(b) <= |b| }

  /** A deletion whose path has a depth but not its first component. */
  predicate ShortPath(rec: seq<byte>)
    requires |rec| >= MIN_SIZE
  {
    && Word16(rec[4..]) == KEY_DELETED
    && var at := NAME_OFF + Word16(rec[6..]);
       at + 2 <= |rec| && Word16(rec[at..]) > 0 && !WholeComponent(rec[at + 2..])
  }

  /** A deletion whose name would run past its end, with a path to be read in the name's place. */
  predicate LongName(rec: seq<byte>)
    requires |rec| >= MIN_SIZE
  {
    && Word16(rec[4..]) == KEY_DELETED && NAME_OFF + Word16(rec[6..]) > |rec| >= NAME_OFF + 2
    && Word16(rec[NAME_OFF..]) > 0 && WholeComponent(rec[NAME_OFF + 2..])
  }

  /** On one record the parsers differ exactly in two cases, one in either direction. */
  lemma DeletionsDiffer(rec: seq<byte>)
    requires |rec| >= MIN_SIZE
    ensures OwnDeletion(rec) && !SaysGone(Parse(rec)) <==> LongName(rec)
    ensures !OwnDeletion(rec) && SaysGone(Parse(rec)) <==> ShortPath(rec)
  {
    hide Word16;
  }

  predicate AnyShortPath(records: seq<seq<byte>>)
    requires Framed(records)
  {
    exists i :: 0 <= i < |records| && ShortPath(records[i])
  }

  predicate AnyLongName(records: seq<seq<byte>>)
    requires Framed(records)
  {
    exists i :: 0 <= i < |records| && LongName(records[i])
  }

  /** A deletion of the watched key that both parsers see. */
  predicate AnyPlainDeletion(records: seq<seq<byte>>)
    requires Framed(records)
  {
    exists i :: 0 <= i < |records| && OwnDeletion(records[i]) && !LongName(records[i])
  }

  lemma {:induction false} EventAt(records: seq<seq<byte>>, i: nat)
    requires Framed(records) && i < |records|
    ensures Events(records)[i] == Parse(records[i])
  {
    hide Parse;
    if i > 0 {
      EventAt(records[1..], i - 1);
    }
  }

  lemma GoneAt(records: seq<seq<byte>>, i: nat)
    requires Framed(records) && i < |records|
    ensures OwnDeletion(records[i]) && !SaysGone(Events(records)[i]) <==> LongName(records[i])
    ensures !OwnDeletion(records[i]) && SaysGone(Events(records)[i]) <==> ShortPath(records[i])
  {
    hide Parse, Events, OwnDeletion, LongName, ShortPath;
    EventAt(records, i);
    DeletionsDiffer(records[i]);
  }

  /** On a run of records they differ exactly when nothing but records of one of the two kinds tells of a deletion. */
  lemma GoneAgrees(records: seq<seq<byte>>)
    requires Framed(records)
    ensures (AnyOwnDeletion(records) <==> AnySaysGone(Events(records))) <==>
            AnyPlainDeletion(records) || (AnyShortPath(records) <==> AnyLongName(records))
  {
    hide Parse, Events, OwnDeletion, LongName, ShortPath, SaysGone;
    var es := Events(records);
    forall i | 0 <= i < |records|
      ensures OwnDeletion(records[i]) && !SaysGone(es[i]) <==> LongName(records[i])
      ensures !OwnDeletion(records[i]) && SaysGone(es[i]) <==> ShortPath(records[i])
    {
      GoneAt(records, i);
    }
  }

  /**
   On any bytes at all the parsers find the same records: one returns an event exactly when the other
   reports a change. That the stream is to be given up, for one because it stopped early or an event says
   so, they agree on but for the deletions above.
   */
  method BothParsers(buf: seq<byte>) returns (events: seq<Event>, stopped: nat, n: News)
    ensures events == Events(Frame(buf).records) && stopped <= |buf| && (stopped == |buf| <==> Frame(buf).whole)
    ensures n.changed <==> events != []
    ensures stopped < |buf| ==> n.gone
    ensures var rs := Frame(buf).records;
            (n.gone <==> stopped < |buf| || AnySaysGone(events)) <==>
            stopped < |buf| || AnyPlainDeletion(rs) || (AnyShortPath(rs) <==> AnyLongName(rs))
  {
    hide Frame, Events, AnyOwnDeletion, AnySaysGone, AnyPlainDeletion, AnyShortPath, AnyLongName;
    events, stopped := ParseEvents(buf);
    n := ClassifyRecords(buf);
    GoneAgrees(Frame(buf).records);
  }

  /** A path of depth 1 whose component is missing: to one parser the watched key is gone, to the other not. */
  lemma ShortPathDisagrees()
    ensures var rec: seq<byte> := [12, 0, 0, 0, 6, 0, 0, 0, 1, 0, 5, 0];
            FirstLength(rec) == Some(12) && Parse(rec) == Event(KEY_DELETED, [], []) && !OwnDeletion(rec)
  {
    var rec: seq<byte> := [12, 0, 0, 0, 6, 0, 0, 0, 1, 0, 5, 0];
    assert rec[10..] == [5, 0];
    assert PathOf(rec[10..], 1) == [];
    assert rec[8..8] == [];
  }

  /** A name of 100 bytes in a record of 13: to one parser a key below was deleted, to the other the watched one. */
  lemma LongNameDisagrees()
    ensures var rec: seq<byte> := [13, 0, 0, 0, 6, 0, 100, 0, 1, 0, 1, 0, 65];
            FirstLength(rec) == Some(13) && Parse(rec) == Event(KEY_DELETED, [], [[65]]) && OwnDeletion(rec)
  {
    var rec: seq<byte> := [13, 0, 0, 0, 6, 0, 100, 0, 1, 0, 1, 0, 65];
    assert rec[10..] == [1, 0, 65];
    assert PathOf(rec[10..], 1) == [[65]] by {
      assert rec[10..][2..3] == [65];
      assert rec[10..][3..] == [];
    }
  }
}
