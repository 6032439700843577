/** The resumable field-by-field codec that direct-type messages use.

    A message's `writeTo`/`readFrom` is a fall-through switch on the
    writer's (or reader's) `state`: case k handles field k and, once the
    field is complete, increments the state and falls through to case k+1.
    When a field does not fit in what is left of the current buffer the call
    returns false without touching the state, and a later call with a fresh
    buffer resumes at that same field.

    The writer and reader are modelled at the granularity of whole fields:
    a field write or read either completes in the current buffer (whose
    remaining room is `capacity`) or makes no progress at all. The stream is
    the sequence of whole fields (`WireValue`s) written or still to be read. */
module DirectMessage {
  import opened Common

  /** One field as the direct message stream carries it. */
  datatype WireValue =
    | WHeader(directType: int, fieldsCount: int)
    | WBytes(bytes: Option<seq<Byte>>)
    | WInt(n: int)
    | WKey(key: Option<Key>)
    | WVersion(ver: Option<Version>)
    | WLongs(longs: Option<seq<int>>)
    | WInts(ints: Option<seq<int>>)
    | WValues(vals: Option<seq<Option<Value>>>)
    | WRet(ret: Option<Ret>)

  /** The field kinds, one per reader method (`readByteArray`, `readInt`, ...). */
  datatype Kind = KHeader | KBytes | KInt | KKey | KVersion | KLongs | KInts | KValues | KRet

  function KindOf(v: WireValue): Kind
  {
    match v
    case WHeader(_, _) => KHeader
    case WBytes(_) => KBytes
    case WInt(_) => KInt
    case WKey(_) => KKey
    case WVersion(_) => KVersion
    case WLongs(_) => KLongs
    case WInts(_) => KInts
    case WValues(_) => KValues
    case WRet(_) => KRet
  }

  /** What a reader method returns when its field is incomplete: null, or 0 for `readInt`. */
  function Null(k: Kind): (v: WireValue)
    ensures KindOf(v) == k
  {
    match k
    case KHeader => WHeader(0, 0)
    case KBytes => WBytes(None)
    case KInt => WInt(0)
    case KKey => WKey(None)
    case KVersion => WVersion(None)
    case KLongs => WLongs(None)
    case KInts => WInts(None)
    case KValues => WValues(None)
    case KRet => WRet(None)
  }

  /** Nominal encoded size in bytes of a field (lengths are 4-byte prefixes,
      a null message is a 2-byte marker); only its comparison with the room
      left in a buffer matters here. */
  function Size(v: WireValue): (n: nat)
    ensures n > 0
  {
    match v
    case WHeader(_, _) => 3
    case WBytes(b) => if b.Some? then 4 + |b.value| else 4
    case WInt(_) => 4
    case WKey(k) => if k.Some? then 2 + 8 else 2
    case WVersion(ver) => if ver.Some? then 2 + 16 else 2
    case WLongs(l) => if l.Some? then 2 + 4 + 8 * |l.value| else 2
    case WInts(l) => if l.Some? then 4 + 4 * |l.value| else 4
    case WValues(l) => if l.Some? then 4 + 10 * |l.value| else 4
    case WRet(r) => if r.Some? then 2 + 8 else 2
  }

  /** Total size of a sequence of fields. */
  function TotalSize(fs: seq<WireValue>): nat
  {
    if fs == [] then 0 else Size(fs[0]) + TotalSize(fs[1..])
  }

  // ---------------------------------------------------------------------
  // Writing

  /** The writer's state: the switch cursor, the one-shot header flag, the
      room left in the current buffer and everything written so far. */
  datatype WriterState = WriterState(state: nat, headerWritten: bool, capacity: nat, out: seq<WireValue>)

  /** A fresh writer, before any call. */
  const FreshWriter := WriterState(0, false, 0, [])

  /** Writing one whole field: it fits in the room left, or nothing changes. */
  function Put(w: WriterState, v: WireValue): (WriterState, bool)
  {
    if Size(v) <= w.capacity then (w.(capacity := w.capacity - Size(v), out := w.out + [v]), true)
    else (w, false)
  }

  /** The header step of `writeTo`: written once, guarded by the header flag. */
  function HeaderStep(w: WriterState, hdr: WireValue): (WriterState, bool)
  {
    if w.headerWritten then (w, true)
    else
      var (w1, ok) := Put(w, hdr);
      if ok then (w1.(headerWritten := true), true) else (w1, false)
  }

  /** Case k of the fall-through switch, holding field v. */
  function FieldStep(w: WriterState, k: nat, v: WireValue): (WriterState, bool)
  {
    if w.state != k then (w, true)
    else
      var (w1, ok) := Put(w, v);
      if ok then (w1.(state := k + 1), true) else (w1, false)
  }

  /** Cases k, k+1, ... of the switch over fields fs, stopping at the first
      field that does not fit. */
  function FieldsFrom(w: WriterState, fs: seq<WireValue>, k: nat): (WriterState, bool)
    decreases |fs| - k
  {
    if k >= |fs| then (w, true)
    else
      var (w1, ok) := FieldStep(w, k, fs[k]);
      if !ok then (w1, false) else FieldsFrom(w1, fs, k + 1)
  }

  /** One `writeTo(buf, writer)` call with a buffer of room cap, for a message
      with header hdr and fields fs in state order. */
  function WriteCall(w: WriterState, cap: nat, hdr: WireValue, fs: seq<WireValue>): (WriterState, bool)
  {
    var (w1, ok) := HeaderStep(w.(capacity := cap), hdr);
    if !ok then (w1, false) else FieldsFrom(w1, fs, 0)
  }

  /** The writer has written the header and then exactly the first `state` fields. */
  ghost predicate WriterConsistent(w: WriterState, hdr: WireValue, fs: seq<WireValue>)
  {
    && w.state <= |fs|
    && (if w.headerWritten then w.out == [hdr] + fs[..w.state] else w.out == [] && w.state == 0)
  }

  /** From state j, the switch writes fields j.. in order and stops at the
      first that does not fit; the state advances past exactly the fields
      written, and the call reports completion iff it reached the end. */
  lemma {:induction false} FieldsFromWrites(w: WriterState, fs: seq<WireValue>, k: nat)
    requires k <= w.state <= |fs|
    ensures var (w', ok) := FieldsFrom(w, fs, k);
      && w.state <= w'.state <= |fs|
      && w'.headerWritten == w.headerWritten
      && w'.out == w.out + fs[w.state..w'.state]
      && (ok <==> w'.state == |fs|)
      && (!ok ==> Size(fs[w'.state]) > w'.capacity)
    decreases |fs| - k
  {
    if k < |fs| {
      var (w1, ok1) := FieldStep(w, k, fs[k]);
      if k < w.state {
        assert w1 == w;
        FieldsFromWrites(w1, fs, k + 1);
      } else if ok1 {
        assert w1.state == k + 1 && w1.out == w.out + [fs[k]];
        FieldsFromWrites(w1, fs, k + 1);
        var (w', _) := FieldsFrom(w1, fs, k + 1);
        assert fs[k..w'.state] == [fs[k]] + fs[k + 1..w'.state];
      } else {
        assert w1 == w && FieldsFrom(w, fs, k) == (w, false);
      }
    }
  }

  /** One `writeTo` call keeps the writer consistent, never rewrites a field,
      and returns true exactly when the header and every field are written. */
  lemma WriteCallResumes(w: WriterState, cap: nat, hdr: WireValue, fs: seq<WireValue>)
    requires WriterConsistent(w, hdr, fs)
    ensures var (w', ok) := WriteCall(w, cap, hdr, fs);
      && WriterConsistent(w', hdr, fs)
      && w.state <= w'.state
      && |w.out| <= |w'.out| && w'.out[..|w.out|] == w.out
      && (ok <==> w'.headerWritten && w'.state == |fs|)
  {
    var (w1, ok1) := HeaderStep(w.(capacity := cap), hdr);
    if ok1 {
      FieldsFromWrites(w1, fs, 0);
      var (w', _) := FieldsFrom(w1, fs, 0);
      assert fs[..w'.state] == fs[..w1.state] + fs[w1.state..w'.state];
    }
  }

  /** Room enough for everything not yet written lets a call complete. */
  lemma {:induction false} FieldsFromCompletes(w: WriterState, fs: seq<WireValue>, k: nat)
    requires k <= w.state <= |fs|
    requires TotalSize(fs[w.state..]) <= w.capacity
    ensures FieldsFrom(w, fs, k).1
    decreases |fs| - k
  {
    if k < |fs| {
      var (w1, ok1) := FieldStep(w, k, fs[k]);
      if k == w.state {
        assert fs[k..] == [fs[k]] + fs[k + 1..];
        assert ok1 && w1.state == k + 1;
      }
      FieldsFromCompletes(w1, fs, k + 1);
    }
  }

  /** Repeated `writeTo` calls with buffers of room caps[0], caps[1], ...,
      stopping at the call that returns true. */
  function Drive(w: WriterState, caps: seq<nat>, hdr: WireValue, fs: seq<WireValue>): (WriterState, bool)
    decreases |caps|
  {
    if caps == [] then (w, false)
    else
      var (w1, ok) := WriteCall(w, caps[0], hdr, fs);
      if ok then (w1, true) else Drive(w1, caps[1..], hdr, fs)
  }

  /** However the output is cut into buffers, once `writeTo` reports
      completion the stream holds the header and each field exactly once, in
      state order: the same stream a single call into a large enough buffer
      produces. */
  lemma {:induction false} ChunkedWriteEqualsOneShot(w: WriterState, caps: seq<nat>, hdr: WireValue, fs: seq<WireValue>)
    requires WriterConsistent(w, hdr, fs)
    ensures var (w', done) := Drive(w, caps, hdr, fs);
      done ==> w'.out == [hdr] + fs
    ensures WriteCall(FreshWriter, Size(hdr) + TotalSize(fs), hdr, fs).1
    ensures WriteCall(FreshWriter, Size(hdr) + TotalSize(fs), hdr, fs).0.out == [hdr] + fs
    decreases |caps|
  {
    if caps != [] {
      WriteCallResumes(w, caps[0], hdr, fs);
      ChunkedWriteEqualsOneShot(WriteCall(w, caps[0], hdr, fs).0, caps[1..], hdr, fs);
    }
    var (w1, ok1) := HeaderStep(FreshWriter.(capacity := Size(hdr) + TotalSize(fs)), hdr);
    assert ok1 && w1.state == 0 && w1.capacity == TotalSize(fs) && fs[0..] == fs;
    FieldsFromCompletes(w1, fs, 0);
    WriteCallResumes(FreshWriter, Size(hdr) + TotalSize(fs), hdr, fs);
  }

  /** The message writer: `MessageWriter` with one buffer at a time. */
  class MessageWriter {
    var state: nat
    var headerWritten: bool
    var capacity: nat
    var out: seq<WireValue>

    function Snapshot(): WriterState
      reads this
    {
      WriterState(state, headerWritten, capacity, out)
    }

    constructor ()
      ensures Snapshot() == FreshWriter
    {
      state, headerWritten, capacity, out := 0, false, 0, [];
    }

    /** `setBuffer`: the next writes go to a buffer with room cap. */
    method SetBuffer(cap: nat)
      modifies this
      ensures Snapshot() == old(Snapshot()).(capacity := cap)
    {
      capacity := cap;
    }

    /** `writeHeader(directType, fieldsCount)`, or any field write: all or nothing. */
    method Write(v: WireValue) returns (ok: bool)
      modifies this
      ensures (Snapshot(), ok) == Put(old(Snapshot()), v)
    {
      ok := Size(v) <= capacity;
      if ok {
        capacity := capacity - Size(v);
        out := out + [v];
      }
    }

    method OnHeaderWritten()
      modifies this
      ensures Snapshot() == old(Snapshot()).(headerWritten := true)
    {
      headerWritten := true;
    }

    method IncrementState()
      modifies this
      ensures Snapshot() == old(Snapshot()).(state := old(state) + 1)
    {
      state := state + 1;
    }
  }

  // ---------------------------------------------------------------------
  // Reading

  /** The reader's state: the switch cursor, the room left in the current
      buffer, the fields still to arrive, and whether the last read completed. */
  datatype ReaderState = ReaderState(state: nat, capacity: nat, input: seq<WireValue>, lastRead: bool)

  /** A reader about to read a message whose fields will arrive as `input`. */
  function FreshReader(input: seq<WireValue>): ReaderState
  {
    ReaderState(0, 0, input, false)
  }

  /** A read of a field of kind k: the next field if it has fully arrived
      (a field of another kind reads as the null of k), otherwise the null
      of k with `lastRead` false. */
  function Take(r: ReaderState, k: Kind): (ReaderState, WireValue)
  {
    if |r.input| > 0 && Size(r.input[0]) <= r.capacity then
      var v := r.input[0];
      (r.(capacity := r.capacity - Size(v), input := r.input[1..], lastRead := true),
       if KindOf(v) == k then v else Null(k))
    else (r.(lastRead := false), Null(k))
  }

  /** Case k of `readFrom`'s switch: the field is assigned whatever the read
      returned (null when incomplete); the state advances only on a complete
      read. `view` is the message's fields in state order. */
  function ReadStep(r: ReaderState, view: seq<WireValue>, kinds: seq<Kind>, k: nat): (res: (ReaderState, seq<WireValue>, bool))
    requires |view| == |kinds| && k < |kinds|
    ensures |res.1| == |view|
  {
    if r.state != k then (r, view, true)
    else
      var (r1, v) := Take(r, kinds[k]);
      if r1.lastRead then (r1.(state := k + 1), view[k := v], true) else (r1, view[k := v], false)
  }

  /** Cases k, k+1, ... of `readFrom`, stopping at the first incomplete field. */
  function ReadFrom(r: ReaderState, view: seq<WireValue>, kinds: seq<Kind>, k: nat): (res: (ReaderState, seq<WireValue>, bool))
    requires |view| == |kinds| && k <= |kinds|
    ensures |res.1| == |view|
    decreases |kinds| - k
  {
    if k == |kinds| then (r, view, true)
    else
      var (r1, view1, ok) := ReadStep(r, view, kinds, k);
      if !ok then (r1, view1, false) else ReadFrom(r1, view1, kinds, k + 1)
  }

  /** One `readFrom(buf, reader)` call with a buffer holding cap bytes. */
  function ReadCall(r: ReaderState, cap: nat, view: seq<WireValue>, kinds: seq<Kind>): (res: (ReaderState, seq<WireValue>, bool))
    requires |view| == |kinds|
    ensures |res.1| == |view|
  {
    ReadFrom(r.(capacity := cap), view, kinds, 0)
  }

  /** Every field of fs has the kind its state expects. */
  ghost predicate WellKinded(fs: seq<WireValue>, kinds: seq<Kind>)
  {
    |fs| == |kinds| && forall i :: 0 <= i < |fs| ==> KindOf(fs[i]) == kinds[i]
  }

  /** The reader has read the first `state` fields of fs into the message,
      and the rest of fs is what is still to arrive. */
  ghost predicate ReaderConsistent(r: ReaderState, view: seq<WireValue>, fs: seq<WireValue>)
  {
    && r.state <= |fs| == |view|
    && view[..r.state] == fs[..r.state]
    && r.input == fs[r.state..]
  }

  lemma {:induction false} ReadFromReads(r: ReaderState, view: seq<WireValue>, kinds: seq<Kind>, fs: seq<WireValue>, k: nat)
    requires WellKinded(fs, kinds) && ReaderConsistent(r, view, fs)
    requires k <= r.state
    ensures var (r', view', ok) := ReadFrom(r, view, kinds, k);
      && ReaderConsistent(r', view', fs)
      && r.state <= r'.state
      && (ok <==> r'.state == |fs|)
    decreases |kinds| - k
  {
    if k < |kinds| {
      var (r1, view1, ok1) := ReadStep(r, view, kinds, k);
      if k == r.state && ok1 {
        assert r.input[0] == fs[k];
        assert view1[..k + 1] == fs[..k + 1];
        assert fs[k..][1..] == fs[k + 1..];
      }
      if ok1 {
        ReadFromReads(r1, view1, kinds, fs, k + 1);
      } else {
        assert view1[..r1.state] == view[..r.state];
      }
    }
  }

  /** One `readFrom` call keeps the completed fields, resumes at the
      unfinished one, and returns true exactly when every field is read. */
  lemma ReadCallResumes(r: ReaderState, cap: nat, view: seq<WireValue>, kinds: seq<Kind>, fs: seq<WireValue>)
    requires WellKinded(fs, kinds) && ReaderConsistent(r, view, fs)
    ensures var (r', view', ok) := ReadCall(r, cap, view, kinds);
      && ReaderConsistent(r', view', fs)
      && r.state <= r'.state
      && (ok ==> view' == fs)
      && (ok <==> r'.state == |fs|)
  {
    ReadFromReads(r.(capacity := cap), view, kinds, fs, 0);
    var (r', view', ok) := ReadCall(r, cap, view, kinds);
    if ok {
      assert view' == view'[..r'.state];
    }
  }

  /** Repeated `readFrom` calls with buffers holding caps[0], caps[1], ...
      bytes, stopping at the call that returns true. */
  function DriveRead(r: ReaderState, caps: seq<nat>, view: seq<WireValue>, kinds: seq<Kind>): (res: (ReaderState, seq<WireValue>, bool))
    requires |view| == |kinds|
    ensures |res.1| == |view|
    decreases |caps|
  {
    if caps == [] then (r, view, false)
    else
      var (r1, view1, ok) := ReadCall(r, caps[0], view, kinds);
      if ok then (r1, view1, true) else DriveRead(r1, caps[1..], view1, kinds)
  }

  /** However the incoming fields are cut into buffers, once `readFrom`
      reports completion the message holds exactly the fields that were sent,
      whatever it held before. */
  lemma {:induction false} ChunkedReadDecodes(r: ReaderState, caps: seq<nat>, view: seq<WireValue>, kinds: seq<Kind>, fs: seq<WireValue>)
    requires WellKinded(fs, kinds) && ReaderConsistent(r, view, fs)
    ensures var (_, view', done) := DriveRead(r, caps, view, kinds);
      done ==> view' == fs
    decreases |caps|
  {
    if caps != [] {
      ReadCallResumes(r, caps[0], view, kinds, fs);
      var (r1, view1, ok) := ReadCall(r, caps[0], view, kinds);
      if !ok {
        ChunkedReadDecodes(r1, caps[1..], view1, kinds, fs);
      }
    }
  }

  /** The message reader: `MessageReader` over one buffer at a time. */
  class MessageReader {
    var state: nat
    var capacity: nat
    var input: seq<WireValue>
    var lastRead: bool

    function Snapshot(): ReaderState
      reads this
    {
      ReaderState(state, capacity, input, lastRead)
    }

    constructor (incoming: seq<WireValue>)
      ensures Snapshot() == FreshReader(incoming)
    {
      state, capacity, input, lastRead := 0, 0, incoming, false;
    }

    method SetBuffer(cap: nat)
      modifies this
      ensures Snapshot() == old(Snapshot()).(capacity := cap)
    {
      capacity := cap;
    }

    /** `readByteArray`, `readInt`, `readMessage`, `readCollection`: one field of kind k. */
    method Read(k: Kind) returns (v: WireValue)
      modifies this
      ensures (Snapshot(), v) == Take(old(Snapshot()), k)
    {
      if |input| > 0 && Size(input[0]) <= capacity {
        v := input[0];
        capacity := capacity - Size(v);
        input := input[1..];
        lastRead := true;
        if KindOf(v) != k {
          v := Null(k);
        }
      } else {
        lastRead := false;
        v := Null(k);
      }
    }

    method IncrementState()
      modifies this
      ensures Snapshot() == old(Snapshot()).(state := old(state) + 1)
    {
      state := state + 1;
    }
  }

  /** One case of a `writeTo` switch, field v in state k: written if the
      writer is at state k, and the state advanced once it is. One step of
      `FieldsFrom`. */
  method WriteCase(writer: MessageWriter, k: nat, v: WireValue, ghost fs: seq<WireValue>) returns (ok: bool)
    requires k < |fs| && fs[k] == v
    modifies writer
    ensures ok ==> FieldsFrom(writer.Snapshot(), fs, k + 1) == FieldsFrom(old(writer.Snapshot()), fs, k)
    ensures !ok ==> (writer.Snapshot(), false) == FieldsFrom(old(writer.Snapshot()), fs, k)
  {
    ok := true;
    if writer.state == k {
      ok := writer.Write(v);
      if ok {
        writer.IncrementState();
      }
    }
  }

  /** The read of a `readFrom` switch case whose state k is the reader's:
      the value to assign to the field, and whether the state advanced past
      it. One step of `ReadFrom`, the field's assignment being the caller's. */
  method ReadCase(reader: MessageReader, k: nat, ghost view: seq<WireValue>, kinds: seq<Kind>) returns (v: WireValue, ok: bool)
    requires |view| == |kinds| && k < |kinds| && reader.state == k
    modifies reader
    ensures KindOf(v) == kinds[k]
    ensures ok ==> ReadFrom(reader.Snapshot(), view[k := v], kinds, k + 1) == ReadFrom(old(reader.Snapshot()), view, kinds, k)
    ensures !ok ==> (reader.Snapshot(), view[k := v], false) == ReadFrom(old(reader.Snapshot()), view, kinds, k)
  {
    v := reader.Read(kinds[k]);
    ok := reader.lastRead;
    if ok {
      reader.IncrementState();
    }
  }

  /** A case whose state is not the reader's is skipped. */
  lemma ReadCaseSkipped(r: ReaderState, view: seq<WireValue>, kinds: seq<Kind>, k: nat)
    requires |view| == |kinds| && k < |kinds| && r.state != k
    ensures ReadFrom(r, view, kinds, k + 1) == ReadFrom(r, view, kinds, k)
  {
  }
}
