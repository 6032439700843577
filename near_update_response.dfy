/** The near update response of a single-key atomic update: what the primary
    node sends back to the node that asked for the update. It collects, by
    appending, at most one failed key and one remap key, an error whose
    causes pile up as suppressed exceptions, parallel lists of value indexes
    and values for the requester's near cache, skipped indexes, and two
    sparse side lists of TTLs and expire times that are created lazily and
    back-filled with -1. It travels as a direct message of 14 fields: three
    of the supertype's, then eleven of its own. */
module NearUpdateResponses {
  import opened Common
  import opened DirectMessage

  const DIRECT_TYPE := 41
  const FIELDS_COUNT := 14

  /** Message of the error created by the first failed key. */
  const FAILED_KEYS_MESSAGE := "Failed to update keys on primary node."

  /** A checked exception: its message and the causes added as suppressed,
      in the order they were added. */
  datatype CheckedError = CheckedError(message: string, suppressed: seq<Cause>)

  /** The supertype's three message fields (states 0..2). What they hold is
      not part of this model; they are carried along as wire values. */
  datatype SuperFields = SuperFields(f0: WireValue, f1: WireValue, f2: WireValue)

  /** Every field of a response; `None` stands for Java's null. `nodeId`
      and `err` are transient: they never go on the wire. */
  datatype ResponseData = ResponseData(
    base: SuperFields,
    nodeId: Option<NodeId>,
    futVer: Option<Version>,
    err: Option<CheckedError>,
    errBytes: Option<seq<Byte>>,
    ret: Option<Ret>,
    failedKey: Option<Key>,
    remapKey: Option<Key>,
    nearValsIdxs: Option<seq<int>>,
    nearSkipIdxs: Option<seq<int>>,
    nearVals: Option<seq<Option<Value>>>,
    nearVer: Option<Version>,
    nearTtls: Option<seq<int>>,
    nearExpireTimes: Option<seq<int>>)

  // -----------------------------------------------------------------------
  // Failed and remap keys

  /** `failedKeysCount()`: a single-key response has at most one failed key. */
  function FailedKeysCount(d: ResponseData): (n: int)
    ensures n == 0 || n == 1
    ensures n == 1 <==> d.failedKey.Some?
  {
    if d.failedKey.None? then 0 else 1
  }

  /** `remapKeysCount()`. */
  function RemapKeysCount(d: ResponseData): (n: int)
    ensures n == 0 || n == 1
    ensures n == 1 <==> d.remapKey.Some?
  {
    if d.remapKey.None? then 0 else 1
  }

  /** `failedKey(idx)`: only index 0 exists (the source asserts it). */
  function FailedKey(d: ResponseData, idx: int): (k: Option<Key>)
    requires idx == 0
    ensures k.Some? <==> FailedKeysCount(d) == 1
  {
    d.failedKey
  }

  /** `remapKey(idx)`: only index 0 exists (the source asserts it). */
  function RemapKey(d: ResponseData, idx: int): (k: Option<Key>)
    requires idx == 0
    ensures k.Some? <==> RemapKeysCount(d) == 1
  {
    d.remapKey
  }

  /** `setFailedKeysError(e)`: the error is created on the first failure and
      every cause is appended to it as suppressed. */
  function WithFailedKeysError(d: ResponseData, e: Cause): ResponseData
  {
    var base := if d.err.None? then CheckedError(FAILED_KEYS_MESSAGE, []) else d.err.value;
    d.(err := Some(base.(suppressed := base.suppressed + [e])))
  }

  /** `addFailedKey(key, e)`. */
  function WithFailedKey(d: ResponseData, key: Option<Key>, e: Cause): ResponseData
  {
    WithFailedKeysError(d.(failedKey := key), e)
  }

  /** `addFailedKeys(keys, e)`: a null collection leaves the key alone; a
      collection holds exactly one key. */
  function WithFailedKeys(d: ResponseData, keys: Option<seq<Option<Key>>>, e: Cause): ResponseData
    requires keys.Some? ==> |keys.value| == 1
  {
    var d1 := if keys.Some? then d.(failedKey := keys.value[0]) else d;
    WithFailedKeysError(d1, e)
  }

  /** A failure recorded for key and cause: the key is the failed key, an
      error exists, its message is the one it was created with, and the cause
      is appended after the earlier ones, none of which is lost. */
  lemma FailedKeyRecorded(d: ResponseData, key: Option<Key>, e: Cause)
    ensures var d' := WithFailedKey(d, key, e);
      && d'.failedKey == key
      && FailedKeysCount(d') == (if key.Some? then 1 else 0)
      && d'.err.Some?
      && d'.err.value.message == (if d.err.Some? then d.err.value.message else FAILED_KEYS_MESSAGE)
      && d'.err.value.suppressed == (if d.err.Some? then d.err.value.suppressed else []) + [e]
      && d' == d.(failedKey := key, err := d'.err)
  {
  }

  /** Failures recorded one after the other. */
  function WithFailures(d: ResponseData, keys: seq<Option<Key>>, causes: seq<Cause>): ResponseData
    requires |keys| == |causes|
    decreases |keys|
  {
    if keys == [] then d else WithFailures(WithFailedKey(d, keys[0], causes[0]), keys[1..], causes[1..])
  }

  /** However many failures are recorded, the error is created only once:
      all their causes are kept, in order, after the causes already there,
      and the last key is the failed key. */
  lemma {:induction false} FailuresAccumulate(d: ResponseData, keys: seq<Option<Key>>, causes: seq<Cause>)
    requires |keys| == |causes| > 0
    ensures var d' := WithFailures(d, keys, causes);
      && d'.failedKey == keys[|keys| - 1]
      && d'.err.Some?
      && d'.err.value.message == (if d.err.Some? then d.err.value.message else FAILED_KEYS_MESSAGE)
      && d'.err.value.suppressed == (if d.err.Some? then d.err.value.suppressed else []) + causes
    decreases |keys|
  {
    var d1 := WithFailedKey(d, keys[0], causes[0]);
    if |keys| > 1 {
      FailuresAccumulate(d1, keys[1..], causes[1..]);
      assert [causes[0]] + causes[1..] == causes;
    }
  }

  // -----------------------------------------------------------------------
  // Near-cache values and the TTL / expire-time side lists

  /** `keyIdx` copies of -1 (none when keyIdx is not positive). */
  function Padding(keyIdx: int): (l: seq<int>)
    ensures |l| == (if keyIdx > 0 then keyIdx else 0)
    ensures forall i :: 0 <= i < |l| ==> l[i] == -1
  {
    seq(if keyIdx > 0 then keyIdx else 0, _ => -1)
  }

  /** One side list's half of `addNearTtl`: a non-negative value creates a
      missing list padded with -1 up to keyIdx; an existing list gets the
      value appended, whatever its sign. */
  function SideListAdd(l: Option<seq<int>>, keyIdx: int, v: int): Option<seq<int>>
  {
    var l1 := if v >= 0 && l.None? then Some(Padding(keyIdx)) else l;
    if l1.Some? then Some(l1.value + [v]) else None
  }

  /** `addNearTtl(keyIdx, ttl, expireTime)`. */
  function WithNearTtl(d: ResponseData, keyIdx: int, ttl: int, expireTime: int): ResponseData
  {
    d.(nearTtls := SideListAdd(d.nearTtls, keyIdx, ttl),
       nearExpireTimes := SideListAdd(d.nearExpireTimes, keyIdx, expireTime))
  }

  /** `nearTtl(idx)`: -1 when the list was never created; an index the
      list does not have is what the source asserts against. */
  function NearTtl(d: ResponseData, idx: int): (t: int)
    requires d.nearTtls.Some? ==> 0 <= idx < |d.nearTtls.value|
    ensures d.nearTtls.None? ==> t == -1
  {
    if d.nearTtls.Some? then d.nearTtls.value[idx] else -1
  }

  /** `nearExpireTime(idx)`: -1 when the list was never created; an index
      the list does not have is what the source asserts against. */
  function NearExpireTime(d: ResponseData, idx: int): (t: int)
    requires d.nearExpireTimes.Some? ==> 0 <= idx < |d.nearExpireTimes.value|
    ensures d.nearExpireTimes.None? ==> t == -1
  {
    if d.nearExpireTimes.Some? then d.nearExpireTimes.value[idx] else -1
  }

  /** Index of the first non-negative value of vs (|vs| if there is none):
      the call that creates a side list. */
  function FirstStart(vs: seq<int>): (f: nat)
    ensures f <= |vs|
    ensures forall j :: 0 <= j < f ==> vs[j] < 0
    ensures f < |vs| ==> vs[f] >= 0
  {
    if vs == [] then 0 else if vs[0] >= 0 then 0 else 1 + FirstStart(vs[1..])
  }

  /** The side list l is what `addNearTtl` calls for keys 0, 1, ..., |vs|-1
      with values vs leave behind: no list while every value was negative,
      else one entry per key, -1 before the first non-negative value and the
      value passed from then on. */
  predicate Recorded(l: Option<seq<int>>, vs: seq<int>)
  {
    && (l.None? <==> FirstStart(vs) == |vs|)
    && (l.Some? ==> |l.value| == |vs| && forall i :: 0 <= i < |vs| ==> l.value[i] == (if i < FirstStart(vs) then -1 else vs[i]))
  }

  /** The first start of a longer sequence: unchanged once some value was
      non-negative, else the new value's index if it is non-negative. */
  lemma {:induction false} FirstStartAppend(vs: seq<int>, v: int)
    ensures FirstStart(vs + [v]) == (if FirstStart(vs) < |vs| then FirstStart(vs) else if v >= 0 then |vs| else |vs| + 1)
  {
    if vs != [] {
      assert (vs + [v])[1..] == vs[1..] + [v];
      FirstStartAppend(vs[1..], v);
    }
  }

  /** One more consecutive call keeps the side list recorded. */
  lemma SideListAddRecords(l: Option<seq<int>>, vs: seq<int>, v: int)
    requires Recorded(l, vs)
    ensures Recorded(SideListAdd(l, |vs|, v), vs + [v])
  {
    FirstStartAppend(vs, v);
    var vs' := vs + [v];
    var l' := SideListAdd(l, |vs|, v);
    if l'.Some? {
      forall i | 0 <= i < |vs'|
        ensures l'.value[i] == (if i < FirstStart(vs') then -1 else vs'[i])
      {
        if i < |vs| {
          assert vs'[i] == vs[i];
        }
      }
    }
  }

  /** `addNearTtl` calls for keys from, from+1, ... with TTLs ttls and expire
      times exps. */
  function WithNearTtls(d: ResponseData, from: int, ttls: seq<int>, exps: seq<int>): ResponseData
    requires |ttls| == |exps|
    decreases |ttls|
  {
    if ttls == [] then d
    else WithNearTtls(WithNearTtl(d, from, ttls[0], exps[0]), from + 1, ttls[1..], exps[1..])
  }

  lemma {:induction false} WithNearTtlsRecords(d: ResponseData, ps: seq<int>, qs: seq<int>, ttls: seq<int>, exps: seq<int>)
    requires |ps| == |qs| && |ttls| == |exps|
    requires Recorded(d.nearTtls, ps) && Recorded(d.nearExpireTimes, qs)
    ensures var d' := WithNearTtls(d, |ps|, ttls, exps);
      Recorded(d'.nearTtls, ps + ttls) && Recorded(d'.nearExpireTimes, qs + exps)
    decreases |ttls|
  {
    if ttls != [] {
      var d1 := WithNearTtl(d, |ps|, ttls[0], exps[0]);
      SideListAddRecords(d.nearTtls, ps, ttls[0]);
      SideListAddRecords(d.nearExpireTimes, qs, exps[0]);
      assert |ps + [ttls[0]]| == |ps| + 1;
      assert d1.nearTtls == SideListAdd(d.nearTtls, |ps|, ttls[0]);
      WithNearTtlsRecords(d1, ps + [ttls[0]], qs + [exps[0]], ttls[1..], exps[1..]);
      assert ps + [ttls[0]] + ttls[1..] == ps + ttls;
      assert qs + [exps[0]] + exps[1..] == qs + exps;
    } else {
      assert ps + ttls == ps;
      assert qs + exps == qs;
    }
  }

  /** For `addNearTtl` calls with consecutive key indexes 0..n-1 on a
      response without side lists, `nearTtl(i)` and `nearExpireTime(i)` are
      defined for every i < n and give the value passed for key i, or -1 when
      the call for i came before the list was created. */
  lemma ConsecutiveNearTtls(d: ResponseData, ttls: seq<int>, exps: seq<int>, i: int)
    requires d.nearTtls.None? && d.nearExpireTimes.None?
    requires |ttls| == |exps| && 0 <= i < |ttls|
    ensures var d' := WithNearTtls(d, 0, ttls, exps);
      && (d'.nearTtls.Some? ==> |d'.nearTtls.value| == |ttls|)
      && (d'.nearExpireTimes.Some? ==> |d'.nearExpireTimes.value| == |exps|)
      && NearTtl(d', i) == (if i < FirstStart(ttls) then -1 else ttls[i])
      && NearExpireTime(d', i) == (if i < FirstStart(exps) then -1 else exps[i])
  {
    WithNearTtlsRecords(d, [], [], ttls, exps);
    assert [] + ttls == ttls && [] + exps == exps;
  }

  /** `addNearValue(keyIdx, val, ttl, expireTime)`: a missing index list and
      value list are created together; the TTLs are recorded; then the index
      and the value are appended. A response whose index list exists without
      its value list fails with a null pointer exception in the source. */
  function WithNearValue(d: ResponseData, keyIdx: int, val: Option<Value>, ttl: int, expireTime: int): ResponseData
    requires d.nearValsIdxs.Some? ==> d.nearVals.Some?
  {
    var d1 := if d.nearValsIdxs.None? then d.(nearValsIdxs := Some([]), nearVals := Some([])) else d;
    var d2 := WithNearTtl(d1, keyIdx, ttl, expireTime);
    d2.(nearValsIdxs := Some(d2.nearValsIdxs.value + [keyIdx]), nearVals := Some(d2.nearVals.value + [val]))
  }

  /** `isNearValueIndex(idx)`. */
  predicate IsNearValueIndex(d: ResponseData, idx: int)
  {
    d.nearValsIdxs.Some? && idx in d.nearValsIdxs.value
  }

  /** `nearValue(idx)`: the idx-th value added. */
  function NearValue(d: ResponseData, idx: int): Option<Value>
    requires d.nearVals.Some? && 0 <= idx < |d.nearVals.value|
  {
    d.nearVals.value[idx]
  }

  /** The index list and the value list exist together and have the same length. */
  predicate InLockstep(d: ResponseData)
  {
    && d.nearValsIdxs.Some? == d.nearVals.Some?
    && (d.nearValsIdxs.Some? ==> |d.nearValsIdxs.value| == |d.nearVals.value|)
  }

  /** `addNearValue` keeps the two lists in lockstep, pairs the key index
      with the value at the same position, makes the index a near-value
      index, keeps earlier indexes, and records the TTLs as `addNearTtl`. */
  lemma NearValueAdded(d: ResponseData, keyIdx: int, val: Option<Value>, ttl: int, expireTime: int)
    requires InLockstep(d)
    ensures var d' := WithNearValue(d, keyIdx, val, ttl, expireTime);
      var n := if d.nearVals.Some? then |d.nearVals.value| else 0;
      && InLockstep(d')
      && |d'.nearVals.value| == n + 1
      && d'.nearValsIdxs.value[n] == keyIdx
      && NearValue(d', n) == val
      && IsNearValueIndex(d', keyIdx)
      && (forall k :: IsNearValueIndex(d, k) ==> IsNearValueIndex(d', k))
      && d'.nearTtls == SideListAdd(d.nearTtls, keyIdx, ttl)
      && d'.nearExpireTimes == SideListAdd(d.nearExpireTimes, keyIdx, expireTime)
  {
  }

  /** `isNearSkippedIndex(idx)`. */
  predicate IsNearSkippedIndex(d: ResponseData, idx: int)
  {
    d.nearSkipIdxs.Some? && idx in d.nearSkipIdxs.value
  }

  /** `addSkippedIndex(keyIdx)`: the index is appended to the skip list, then
      TTL and expire time -1 are recorded for it. */
  function WithSkippedIndex(d: ResponseData, keyIdx: int): ResponseData
  {
    var skips := if d.nearSkipIdxs.Some? then d.nearSkipIdxs.value else [];
    WithNearTtl(d.(nearSkipIdxs := Some(skips + [keyIdx])), keyIdx, -1, -1)
  }

  /** After `addSkippedIndex(k)`, k is a skipped index (and so is every
      earlier one); a side list is never created by it, and an existing one
      records -1 in its next entry, so `nearTtl`/`nearExpireTime` of that
      entry are -1 either way. */
  lemma SkippedIndexAdded(d: ResponseData, keyIdx: int)
    ensures var d' := WithSkippedIndex(d, keyIdx);
      && IsNearSkippedIndex(d', keyIdx)
      && (forall k :: IsNearSkippedIndex(d, k) ==> IsNearSkippedIndex(d', k))
      && d'.nearTtls.Some? == d.nearTtls.Some?
      && d'.nearExpireTimes.Some? == d.nearExpireTimes.Some?
      && (d.nearTtls.Some? ==> NearTtl(d', |d.nearTtls.value|) == -1)
      && (d.nearTtls.None? ==> NearTtl(d', 0) == -1)
      && (d.nearExpireTimes.Some? ==> NearExpireTime(d', |d.nearExpireTimes.value|) == -1)
      && (d.nearExpireTimes.None? ==> NearExpireTime(d', 0) == -1)
      && d'.nearVals == d.nearVals && d'.nearValsIdxs == d.nearValsIdxs
  {
  }

  // -----------------------------------------------------------------------
  // Marshalling guards

  /** `prepareMarshal`'s own part: the error is marshalled (by the given
      marshaller) only when there is one and no bytes yet. */
  function Prepared(d: ResponseData, marshal: CheckedError -> seq<Byte>): ResponseData
  {
    if d.err.Some? && d.errBytes.None? then d.(errBytes := Some(marshal(d.err.value))) else d
  }

  /** `finishUnmarshal`'s own part: the error is restored from its bytes
      only when there are bytes and no error yet. */
  function Finished(d: ResponseData, unmarshal: seq<Byte> -> CheckedError): ResponseData
  {
    if d.errBytes.Some? && d.err.None? then d.(err := Some(unmarshal(d.errBytes.value))) else d
  }

  /** The guards make both steps idempotent, and they never overwrite a
      value that is already there. */
  lemma MarshalGuards(d: ResponseData, marshal: CheckedError -> seq<Byte>, unmarshal: seq<Byte> -> CheckedError)
    ensures Prepared(Prepared(d, marshal), marshal) == Prepared(d, marshal)
    ensures Finished(Finished(d, unmarshal), unmarshal) == Finished(d, unmarshal)
    ensures d.errBytes.Some? ==> Prepared(d, marshal) == d
    ensures d.err.Some? ==> Finished(d, unmarshal) == d
    ensures Prepared(d, marshal).errBytes.Some? <==> d.err.Some? || d.errBytes.Some?
    ensures Finished(d, unmarshal).err.Some? <==> d.err.Some? || d.errBytes.Some?
  {
  }

  // -----------------------------------------------------------------------
  // The wire form

  /** The fields in state order: the supertype's three (states 0..2), then
      errBytes, failedKey, futVer, nearExpireTimes, nearSkipIdxs, nearTtls,
      nearVals, nearValsIdxs, nearVer, remapKey, ret (states 3..13). */
  function View(d: ResponseData): (v: seq<WireValue>)
    ensures |v| == FIELDS_COUNT
  {
    [d.base.f0, d.base.f1, d.base.f2,
     WBytes(d.errBytes), WKey(d.failedKey), WVersion(d.futVer), WLongs(d.nearExpireTimes),
     WInts(d.nearSkipIdxs), WLongs(d.nearTtls), WValues(d.nearVals), WInts(d.nearValsIdxs),
     WVersion(d.nearVer), WKey(d.remapKey), WRet(d.ret)]
  }

  /** The kinds of states 3..13. */
  const OwnKinds: seq<Kind> := [KBytes, KKey, KVersion, KLongs, KInts, KLongs, KValues, KInts, KVersion, KKey, KRet]

  /** The kinds of all 14 states, given the supertype's three. */
  function Kinds(superKinds: seq<Kind>): (ks: seq<Kind>)
    requires |superKinds| == 3
    ensures |ks| == FIELDS_COUNT
  {
    superKinds + OwnKinds
  }

  function BytesOf(w: WireValue): Option<seq<Byte>> { if w.WBytes? then w.bytes else None }
  function KeyOf(w: WireValue): Option<Key> { if w.WKey? then w.key else None }
  function VersionOf(w: WireValue): Option<Version> { if w.WVersion? then w.ver else None }
  function LongsOf(w: WireValue): Option<seq<int>> { if w.WLongs? then w.longs else None }
  function IntsOf(w: WireValue): Option<seq<int>> { if w.WInts? then w.ints else None }
  function ValuesOf(w: WireValue): Option<seq<Option<Value>>> { if w.WValues? then w.vals else None }
  function RetOf(w: WireValue): Option<Ret> { if w.WRet? then w.ret else None }

  /** The response after `readFrom` has assigned the 14 fields from v; the
      transient fields keep what they held. */
  function WithView(d: ResponseData, v: seq<WireValue>): ResponseData
    requires |v| == FIELDS_COUNT
  {
    d.(base := SuperFields(v[0], v[1], v[2]),
       errBytes := BytesOf(v[3]), failedKey := KeyOf(v[4]), futVer := VersionOf(v[5]),
       nearExpireTimes := LongsOf(v[6]), nearSkipIdxs := IntsOf(v[7]), nearTtls := LongsOf(v[8]),
       nearVals := ValuesOf(v[9]), nearValsIdxs := IntsOf(v[10]), nearVer := VersionOf(v[11]),
       remapKey := KeyOf(v[12]), ret := RetOf(v[13]))
  }

  /** Reading back the fields of a response gives that response, except for
      the transient node id and error. */
  lemma WithViewOfView(r: ResponseData, d: ResponseData)
    ensures WithView(r, View(d)) == d.(nodeId := r.nodeId, err := r.err)
  {
  }

  /** The fields of a response have the kinds its states read, given that
      the supertype's do. */
  lemma ViewWellKinded(d: ResponseData, superKinds: seq<Kind>)
    requires |superKinds| == 3
    requires KindOf(d.base.f0) == superKinds[0] && KindOf(d.base.f1) == superKinds[1] && KindOf(d.base.f2) == superKinds[2]
    ensures WellKinded(View(d), Kinds(superKinds))
  {
    var fs, ks := View(d), Kinds(superKinds);
    forall i | 0 <= i < |fs|
      ensures KindOf(fs[i]) == ks[i]
    {
    }
  }

  /** However the sent fields are cut into buffers, a receiver that completes
      `readFrom` holds every field the sender had, keeping only its own node
      id and error; with the sender's error marshalled beforehand and the
      receiver's `finishUnmarshal` afterwards, the receiver's error is the
      unmarshalled bytes of the sender's. */
  lemma ResponseRoundTrip(d: ResponseData, r0: ResponseData, caps: seq<nat>, superKinds: seq<Kind>,
                          marshal: CheckedError -> seq<Byte>, unmarshal: seq<Byte> -> CheckedError)
    requires |superKinds| == 3
    requires KindOf(d.base.f0) == superKinds[0] && KindOf(d.base.f1) == superKinds[1] && KindOf(d.base.f2) == superKinds[2]
    requires r0.err.None?
    ensures var sent := Prepared(d, marshal);
      var (_, view', done) := DriveRead(FreshReader(View(sent)), caps, View(r0), Kinds(superKinds));
      done ==>
        && WithView(r0, view') == sent.(nodeId := r0.nodeId, err := None)
        && (d.err.Some? ==>
              Finished(WithView(r0, view'), unmarshal).err
              == Some(unmarshal(if d.errBytes.Some? then d.errBytes.value else marshal(d.err.value))))
  {
    var sent := Prepared(d, marshal);
    var fs := View(sent);
    var ks := Kinds(superKinds);
    ViewWellKinded(sent, superKinds);
    assert ReaderConsistent(FreshReader(fs), View(r0), fs);
    ChunkedReadDecodes(FreshReader(fs), caps, View(r0), ks, fs);
    var res := DriveRead(FreshReader(fs), caps, View(r0), ks);
    if res.2 {
      assert res.1 == fs;
      WithViewOfView(r0, sent);
    }
  }

  // -----------------------------------------------------------------------
  // The response object

  /** A new list of keyIdx copies of -1 (the padding loops of `addNearTtl`). */
  method NewPaddedList(keyIdx: int) returns (l: seq<int>)
    ensures |l| == (if keyIdx > 0 then keyIdx else 0)
    ensures forall i :: 0 <= i < |l| ==> l[i] == -1
  {
    l := [];
    var i := 0;
    while i < keyIdx
      invariant 0 <= i <= (if keyIdx > 0 then keyIdx else 0) && |l| == i
      invariant forall j :: 0 <= j < |l| ==> l[j] == -1
    {
      l := l + [-1];
      i := i + 1;
    }
  }

  class NearUpdateResponse {
    var base: SuperFields
    var nodeId: Option<NodeId>
    var futVer: Option<Version>
    var err: Option<CheckedError>
    var errBytes: Option<seq<Byte>>
    var ret: Option<Ret>
    var failedKey: Option<Key>
    var remapKey: Option<Key>
    var nearValsIdxs: Option<seq<int>>
    var nearSkipIdxs: Option<seq<int>>
    var nearVals: Option<seq<Option<Value>>>
    var nearVer: Option<Version>
    var nearTtls: Option<seq<int>>
    var nearExpireTimes: Option<seq<int>>

    function Data(): ResponseData
      reads this
    {
      ResponseData(base, nodeId, futVer, err, errBytes, ret, failedKey, remapKey,
                   nearValsIdxs, nearSkipIdxs, nearVals, nearVer, nearTtls, nearExpireTimes)
    }

    /** The response the primary creates for the requesting node: everything
      but the node id, the future version and the supertype's fields is null. */
    constructor (b: SuperFields, node: Option<NodeId>, ver: Version)
      ensures Data() == ResponseData(b, node, Some(ver), None, None, None, None, None,
                                     None, None, None, None, None, None)
    {
      base, nodeId, futVer := b, node, Some(ver);
      err, errBytes, ret, failedKey, remapKey := None, None, None, None, None;
      nearValsIdxs, nearSkipIdxs, nearVals, nearVer, nearTtls, nearExpireTimes := None, None, None, None, None, None;
    }

    /** `remapKeys(req)`: the request's only key is to be remapped. */
    method RemapKeys(reqKey: Option<Key>)
      modifies this
      ensures Data() == old(Data()).(remapKey := reqKey)
    {
      remapKey := reqKey;
    }

    method SetFailedKeysError(e: Cause)
      modifies this
      ensures Data() == WithFailedKeysError(old(Data()), e)
    {
      if err.None? {
        err := Some(CheckedError(FAILED_KEYS_MESSAGE, []));
      }
      err := Some(err.value.(suppressed := err.value.suppressed + [e]));
    }

    method AddFailedKey(key: Option<Key>, e: Cause)
      modifies this
      ensures Data() == WithFailedKey(old(Data()), key, e)
    {
      failedKey := key;
      SetFailedKeysError(e);
    }

    method AddFailedKeys(keys: Option<seq<Option<Key>>>, e: Cause)
      requires keys.Some? ==> |keys.value| == 1
      modifies this
      ensures Data() == WithFailedKeys(old(Data()), keys, e)
    {
      if keys.Some? {
        failedKey := keys.value[0];
      }
      SetFailedKeysError(e);
    }

    /** `addFailedKeys(req, e)`: the request's only key failed. */
    method AddFailedKeysOfRequest(reqKey: Option<Key>, e: Cause)
      modifies this
      ensures Data() == WithFailedKey(old(Data()), reqKey, e)
    {
      failedKey := reqKey;
      SetFailedKeysError(e);
    }

    method AddNearTtl(keyIdx: int, ttl: int, expireTime: int)
      modifies this
      ensures Data() == WithNearTtl(old(Data()), keyIdx, ttl, expireTime)
    {
      if ttl >= 0 {
        if nearTtls.None? {
          var l := NewPaddedList(keyIdx);
          assert l == Padding(keyIdx);
          nearTtls := Some(l);
        }
      }
      if nearTtls.Some? {
        nearTtls := Some(nearTtls.value + [ttl]);
      }
      if expireTime >= 0 {
        if nearExpireTimes.None? {
          var l := NewPaddedList(keyIdx);
          assert l == Padding(keyIdx);
          nearExpireTimes := Some(l);
        }
      }
      if nearExpireTimes.Some? {
        nearExpireTimes := Some(nearExpireTimes.value + [expireTime]);
      }
    }

    method AddNearValue(keyIdx: int, val: Option<Value>, ttl: int, expireTime: int)
      requires nearValsIdxs.Some? ==> nearVals.Some?
      modifies this
      ensures Data() == WithNearValue(old(Data()), keyIdx, val, ttl, expireTime)
    {
      if nearValsIdxs.None? {
        nearValsIdxs := Some([]);
        nearVals := Some([]);
      }
      AddNearTtl(keyIdx, ttl, expireTime);
      nearValsIdxs := Some(nearValsIdxs.value + [keyIdx]);
      nearVals := Some(nearVals.value + [val]);
    }

    method AddSkippedIndex(keyIdx: int)
      modifies this
      ensures Data() == WithSkippedIndex(old(Data()), keyIdx)
    {
      if nearSkipIdxs.None? {
        nearSkipIdxs := Some([]);
      }
      nearSkipIdxs := Some(nearSkipIdxs.value + [keyIdx]);
      AddNearTtl(keyIdx, -1, -1);
    }

    /** The error guard of `prepareMarshal`. */
    method PrepareMarshal(marshal: CheckedError -> seq<Byte>)
      modifies this
      ensures Data() == Prepared(old(Data()), marshal)
    {
      if err.Some? && errBytes.None? {
        errBytes := Some(marshal(err.value));
      }
    }

    /** The error guard of `finishUnmarshal`. */
    method FinishUnmarshal(unmarshal: seq<Byte> -> CheckedError)
      modifies this
      ensures Data() == Finished(old(Data()), unmarshal)
    {
      if errBytes.Some? && err.None? {
        err := Some(unmarshal(errBytes.value));
      }
    }

    /** The supertype's part of `writeTo`: the header once, then its states 0..2. */
    method SuperWriteTo(cap: nat, writer: MessageWriter) returns (ok: bool)
      modifies writer
      ensures ok ==> FieldsFrom(writer.Snapshot(), View(Data()), 3)
                     == WriteCall(old(writer.Snapshot()), cap, WHeader(DIRECT_TYPE, FIELDS_COUNT), View(Data()))
      ensures !ok ==> (writer.Snapshot(), false)
                      == WriteCall(old(writer.Snapshot()), cap, WHeader(DIRECT_TYPE, FIELDS_COUNT), View(Data()))
    {
      ghost var fs := View(Data());
      ghost var w0 := writer.Snapshot();
      writer.SetBuffer(cap);
      if !writer.headerWritten {
        var h := writer.Write(WHeader(DIRECT_TYPE, FIELDS_COUNT));
        if !h {
          return false;
        }
        writer.OnHeaderWritten();
      }
      assert FieldsFrom(writer.Snapshot(), fs, 0) == WriteCall(w0, cap, WHeader(DIRECT_TYPE, FIELDS_COUNT), fs);
      ok := WriteCase(writer, 0, base.f0, fs);
      if !ok { return; }
      ok := WriteCase(writer, 1, base.f1, fs);
      if !ok { return; }
      ok := WriteCase(writer, 2, base.f2, fs);
    }

    /** `writeTo(buf, writer)` with a buffer of room cap: the supertype's
      part, then states 3..13, each resumed where the last call stopped. The
      header check the subclass repeats after its supertype's is left out:
      the supertype has written the header by then. */
    method WriteTo(cap: nat, writer: MessageWriter) returns (ok: bool)
      modifies writer
      ensures (writer.Snapshot(), ok) == WriteCall(old(writer.Snapshot()), cap, WHeader(DIRECT_TYPE, FIELDS_COUNT), View(Data()))
    {
      var fields := View(Data());
      ok := SuperWriteTo(cap, writer);
      if !ok { return; }
      var k := 3;
      while k < FIELDS_COUNT
        invariant 3 <= k <= FIELDS_COUNT
        invariant FieldsFrom(writer.Snapshot(), fields, k)
          == WriteCall(old(writer.Snapshot()), cap, WHeader(DIRECT_TYPE, FIELDS_COUNT), fields)
      {
        ok := WriteCase(writer, k, fields[k], fields);
        if !ok { return; }
        k := k + 1;
      }
    }

    /** The supertype's part of `readFrom`: its states 0..2, of kinds
      superKinds. `view` is the fields in state order as assigned so far. */
    method SuperReadFrom(cap: nat, reader: MessageReader, superKinds: seq<Kind>) returns (ok: bool, ghost view: seq<WireValue>)
      requires |superKinds| == 3
      modifies this, reader
      ensures |view| == FIELDS_COUNT && Data() == WithView(old(Data()), view)
      ensures var call := ReadCall(old(reader.Snapshot()), cap, old(View(Data())), Kinds(superKinds));
        && (ok ==> DirectMessage.ReadFrom(reader.Snapshot(), view, Kinds(superKinds), 3) == call)
        && (!ok ==> call == (reader.Snapshot(), view, false))
    {
      var ks := Kinds(superKinds);
      view := View(Data());
      WithViewOfView(Data(), Data());
      reader.SetBuffer(cap);
      var k := 0;
      while k < 3
        invariant 0 <= k <= 3 && |view| == FIELDS_COUNT
        invariant Data() == WithView(old(Data()), view)
        invariant DirectMessage.ReadFrom(reader.Snapshot(), view, ks, k)
          == ReadCall(old(reader.Snapshot()), cap, old(View(Data())), ks)
      {
        if reader.state == k {
          var done;
          done, view := ReadField(reader, k, old(Data()), view, ks);
          if !done { return false, view; }
        } else {
          ReadCaseSkipped(reader.Snapshot(), view, ks, k);
        }
        k := k + 1;
      }
      return true, view;
    }

    /** The assignment of case k of the `readFrom` switch: field k takes v. */
    method AssignField(k: nat, v: WireValue, ghost d0: ResponseData, ghost view: seq<WireValue>)
      requires k < FIELDS_COUNT && |view| == FIELDS_COUNT && Data() == WithView(d0, view)
      modifies this
      ensures Data() == WithView(d0, view[k := v])
    {
      if k == 0 { base := base.(f0 := v); }
      else if k == 1 { base := base.(f1 := v); }
      else if k == 2 { base := base.(f2 := v); }
      else if k == 3 { errBytes := BytesOf(v); }
      else if k == 4 { failedKey := KeyOf(v); }
      else if k == 5 { futVer := VersionOf(v); }
      else if k == 6 { nearExpireTimes := LongsOf(v); }
      else if k == 7 { nearSkipIdxs := IntsOf(v); }
      else if k == 8 { nearTtls := LongsOf(v); }
      else if k == 9 { nearVals := ValuesOf(v); }
      else if k == 10 { nearValsIdxs := IntsOf(v); }
      else if k == 11 { nearVer := VersionOf(v); }
      else if k == 12 { remapKey := KeyOf(v); }
      else { ret := RetOf(v); }
    }

    /** Case k of the `readFrom` switch: read the field's kind and assign
        the field. */
    method ReadField(reader: MessageReader, k: nat, ghost d0: ResponseData, ghost view: seq<WireValue>, ks: seq<Kind>)
      returns (ok: bool, ghost view': seq<WireValue>)
      requires k < FIELDS_COUNT && |view| == |ks| == FIELDS_COUNT && reader.state == k
      requires Data() == WithView(d0, view)
      modifies this, reader
      ensures |view'| == FIELDS_COUNT && Data() == WithView(d0, view')
      ensures ok ==> DirectMessage.ReadFrom(reader.Snapshot(), view', ks, k + 1) == DirectMessage.ReadFrom(old(reader.Snapshot()), view, ks, k)
      ensures !ok ==> (reader.Snapshot(), view', false) == DirectMessage.ReadFrom(old(reader.Snapshot()), view, ks, k)
    {
      var v;
      v, ok := ReadCase(reader, k, view, ks);
      AssignField(k, v, d0, view);
      view' := view[k := v];
    }

    /** `readFrom(buf, reader)` with a buffer holding cap bytes: the
        supertype's part, then states 3..13 in order; each field is assigned
        what its read returned, and the state advances only past a completed
        read. */
    method ReadFrom(cap: nat, reader: MessageReader, superKinds: seq<Kind>) returns (ok: bool)
      requires |superKinds| == 3
      modifies this, reader
      ensures var (r', view', res) := ReadCall(old(reader.Snapshot()), cap, old(View(Data())), Kinds(superKinds));
        reader.Snapshot() == r' && Data() == WithView(old(Data()), view') && ok == res
    {
      var ks := Kinds(superKinds);
      ghost var view;
      ok, view := SuperReadFrom(cap, reader, superKinds);
      if !ok { return; }
      var k := 3;
      while k < FIELDS_COUNT
        invariant 3 <= k <= FIELDS_COUNT && |view| == FIELDS_COUNT
        invariant Data() == WithView(old(Data()), view)
        invariant DirectMessage.ReadFrom(reader.Snapshot(), view, ks, k)
          == ReadCall(old(reader.Snapshot()), cap, old(View(Data())), ks)
      {
        if reader.state == k {
          var done;
          done, view := ReadField(reader, k, old(Data()), view, ks);
          if !done { return false; }
        } else {
          ReadCaseSkipped(reader.Snapshot(), view, ks, k);
        }
        k := k + 1;
      }
      return true;
    }
  }
}
