/** The queue of job results waiting to be acknowledged: at-least-once delivery with quarantine, an archive of what was
    acknowledged, and admission control. Times are ticks of 100 ns. */
module PendingResults {
  import opened Text

  const TICKS_PER_SECOND := 10_000_000

  /** The hash of a payload, taken as an ideal digest. */
  datatype Hash = Hash(of: string)

  /** A pending result; `bulk` is the serialized size of everything a retry does not change. */
  datatype Pending = Pending(
    resultId: string, payload: Option<string>, payloadHash: Option<Hash>, createdAt: int, bulk: nat,
    attemptCount: nat, lastAttemptAt: Option<int>, nextAttemptAt: int, lastErrorCode: string, lastErrorMessage: string)

  /** A file of the queue: a record that can be read, or anything else. */
  datatype Stored = Good(record: Pending) | Unreadable(size: nat)

  /** The name of a result's file, in the one case the file system distinguishes. */
  type Key = string

  function KeyOf(resultId: string): Key {
    Upper(seq(|resultId|, i requires 0 <= i < |resultId| => if resultId[i] in "/\\:" then '_' else resultId[i]))
  }

  datatype Held = Held(key: Key, file: Stored)

  datatype Limits = Limits(maxRecords: int, maxTotalBytes: int, maxPayloadBytes: int)

  /** The queue's directories, and every key that was ever acknowledged. */
  datatype Queue = Queue(active: map<Key, Stored>, quarantine: seq<Held>, acknowledged: set<Key>)

  /** Validate: the record gets the hash of its payload, unless it is refused. */
  function Validated(r: Pending): Option<Pending> {
    if IsBlank(r.resultId) || r.payload.None? then None
    else if r.payloadHash.Some? && r.payloadHash.value != Hash(r.payload.value) then None
    else Some(r.(payloadHash := Some(Hash(r.payload.value))))
  }

  predicate IsSound(file: Stored) {
    file.Good? && Validated(file.record).Some?
  }

  /** The two characters are one in a file name: a letter in either case, or what a separator is replaced by. */
  predicate SameInFileName(a: char, b: char) {
    UpperChar(a) == UpperChar(b) || (a in "/\\:_" && b in "/\\:_")
  }

  /** Two ids share a file exactly if they agree but for the case of letters and for separators and underscores. */
  lemma FilesAreShared(a: string, b: string)
    ensures KeyOf(a) == KeyOf(b) <==> |a| == |b| && forall i :: 0 <= i < |a| ==> SameInFileName(a[i], b[i])
  {
    assert |KeyOf(a)| == |a| && |KeyOf(b)| == |b|;
    if |a| == |b| {
      forall i | 0 <= i < |a|
        ensures KeyOf(a)[i] == KeyOf(b)[i] <==> SameInFileName(a[i], b[i])
      {
      }
    }
  }

  /** What a save leaves can be loaded, and with any other payload in it it cannot. */
  lemma TamperingIsNoticed(q: Queue, r: Pending, payload: Option<string>)
    requires Validated(r).Some?
    ensures var key := KeyOf(r.resultId);
            && key in Saved(q, r).active && IsSound(Saved(q, r).active[key])
            && var record := Saved(q, r).active[key].record;
               && record.resultId == r.resultId && record.payload == r.payload
               && (IsSound(Good(record.(payload := payload))) <==> payload == r.payload)
  {
  }

  // Retry delays.

  const BACKOFF_SECONDS: seq<int> := [5, 15, 30, 60, 300]

  function BaseDelay(attempt: nat): int
    requires attempt >= 1
  {
    if attempt > |BACKOFF_SECONDS| then 60 * (if 15 <= 5 + attempt then 15 else 5 + attempt)
    else BACKOFF_SECONDS[attempt - 1]
  }

  /** Jitter is drawn from 0 up to, not including, this many seconds. */
  function JitterBound(delay: int): int {
    var cut := if delay / 4 <= 30 then delay / 4 else 30;
    if cut <= 1 then 1 else cut
  }

  /** Every retry comes after now and within fifteen and a half minutes, and the base delay never shrinks. */
  lemma RetryDelayBounds(attempt: nat, later: nat, jitter: int)
    requires 1 <= attempt <= later && 0 <= jitter < JitterBound(BaseDelay(attempt))
    ensures 5 <= BaseDelay(attempt) <= BaseDelay(later) <= 900
    ensures 0 < BaseDelay(attempt) + jitter < 930
  {
  }

  /** The waits before the first retries and before every later one, in seconds. */
  lemma RetrySchedule(attempt: nat)
    requires attempt >= 1
    ensures BaseDelay(1) == 5 && BaseDelay(2) == 15 && BaseDelay(3) == 30 && BaseDelay(4) == 60 && BaseDelay(5) == 300
    ensures 6 <= attempt <= 10 ==> BaseDelay(attempt) == 60 * (5 + attempt)
    ensures attempt >= 10 ==> BaseDelay(attempt) == 900
  {
  }

  /** A result is withheld after a failed attempt until its delay is over, and due from then on. */
  lemma FailedIsWithheld(r: Pending, code: string, message: string, now: int, jitter: int, at: int)
    requires 0 <= jitter < JitterBound(BaseDelay(r.attemptCount + 1))
    ensures IsDue(Failed(r, code, message, now, jitter), Some(at))
            <==> at >= now + (BaseDelay(r.attemptCount + 1) + jitter) * TICKS_PER_SECOND
    ensures at < now + 5 * TICKS_PER_SECOND ==> !IsDue(Failed(r, code, message, now, jitter), Some(at))
    ensures at >= now + 930 * TICKS_PER_SECOND ==> IsDue(Failed(r, code, message, now, jitter), Some(at))
    ensures IsDue(Failed(r, code, message, now, jitter), None)
  {
    RetryDelayBounds(r.attemptCount + 1, r.attemptCount + 1, jitter);
  }

  // Serialized sizes.

  function EscapedBytes(c: char): (n: nat)
    ensures 1 <= n <= 6
  {
    if c in "\n\r\t\\" || c as int == 8 || c as int == 12 then 2
    else if ' ' <= c <= '~' && c !in "\"&'+<>`" then 1
    else 6
  }

  function TextBytes(s: string): (n: nat)
    ensures n <= 2 + 6 * |s| && n >= 2
  {
    if s == "" then 2 else EscapedBytes(s[0]) + TextBytes(s[1..])
  }

  function Digits(n: nat): (d: nat)
    ensures d >= 1
  {
    if n < 10 then 1 else 1 + Digits(n / 10)
  }

  function FractionDigits(fraction: nat, width: nat): (d: nat)
    ensures d <= width
    decreases width
  {
    if fraction == 0 || width == 0 then 0
    else if fraction % 10 == 0 then FractionDigits(fraction / 10, width - 1)
    else width
  }

  function TimeBytes(t: int): (n: nat)
    ensures 27 <= n <= 35
  {
    var fraction := t % TICKS_PER_SECOND;
    if fraction == 0 then 27 else 28 + FractionDigits(fraction, 7)
  }

  function RecordBytes(r: Pending): nat {
    r.bulk + Digits(r.attemptCount) + (if r.lastAttemptAt.Some? then TimeBytes(r.lastAttemptAt.value) else 4)
    + TimeBytes(r.nextAttemptAt) + TextBytes(r.lastErrorCode) + TextBytes(r.lastErrorMessage)
  }

  function FileBytes(file: Stored): nat {
    if file.Good? then RecordBytes(file.record) else file.size
  }

  // The operations, as what they leave behind.

  function Saved(q: Queue, r: Pending): Queue {
    if Validated(r).Some? then q.(active := q.active[KeyOf(r.resultId) := Good(Validated(r).value)]) else q
  }

  function Count(q: Queue): nat {
    |q.active| + |q.quarantine|
  }

  function Sizes(files: map<Key, Stored>): map<Key, nat> {
    map k | k in files :: FileBytes(files[k])
  }

  ghost function Sum(sizes: map<Key, nat>): nat
    decreases |sizes|
  {
    if sizes == map[] then 0
    else
      var k :| k in sizes;
      sizes[k] + Sum(sizes - {k})
  }

  function HeldBytes(held: seq<Held>): nat {
    if held == [] then 0 else HeldBytes(held[..|held| - 1]) + FileBytes(held[|held| - 1].file)
  }

  ghost function TotalBytes(q: Queue): nat {
    Sum(Sizes(q.active)) + HeldBytes(q.quarantine)
  }

  /** EnforceLimits with an incoming record. */
  ghost predicate Admits(q: Queue, incoming: Pending, limits: Limits) {
    var key := KeyOf(incoming.resultId);
    var previous := key in q.active;
    && Count(q) + (if previous then 0 else 1) <= limits.maxRecords
    && TotalBytes(q) + RecordBytes(incoming) - (if previous then FileBytes(q.active[key]) else 0) <= limits.maxTotalBytes
  }

  ghost function Enqueued(q: Queue, r: Pending, payloadBytes: nat, limits: Limits): Queue {
    if payloadBytes <= limits.maxPayloadBytes && Admits(q, r, limits) then Saved(q, r) else q
  }

  const MAX_ERROR_MESSAGE := 1000

  /** The record after a failed attempt. */
  function Failed(r: Pending, code: string, message: string, now: int, jitter: int): Pending {
    var attempt := r.attemptCount + 1;
    r.(attemptCount := attempt, lastAttemptAt := Some(now), lastErrorCode := code,
       lastErrorMessage := if |message| > MAX_ERROR_MESSAGE then message[..MAX_ERROR_MESSAGE] else message,
       nextAttemptAt := now + (BaseDelay(attempt) + jitter) * TICKS_PER_SECOND)
  }

  function Acknowledged(q: Queue, r: Pending): Queue {
    var key := KeyOf(r.resultId);
    if key in q.active then q.(active := q.active - {key}, acknowledged := q.acknowledged + {key}) else q
  }

  datatype Op =
    | Enqueue(record: Pending, payloadBytes: nat)
    | QuarantineOne(key: Key)                    // loading finds a file it cannot read, and moves it
    | Corrupt(key: Key, size: nat)               // a file of the queue is damaged from outside
    | Fail(record: Pending, code: string, message: string, now: int, jitter: int)
    | Ack(record: Pending)

  ghost function AfterOp(q: Queue, op: Op, limits: Limits): Queue {
    match op
    case Enqueue(r, bytes) => Enqueued(q, r, bytes, limits)
    case QuarantineOne(key) => Quarantined(q, key)
    case Corrupt(key, size) => if key in q.active then q.(active := q.active[key := Unreadable(size)]) else q
    case Fail(r, code, message, now, jitter) => Saved(q, Failed(r, code, message, now, jitter))
    case Ack(r) => Acknowledged(q, r)
  }

  function Quarantined(q: Queue, key: Key): Queue {
    if key in q.active && !IsSound(q.active[key]) then
      q.(active := q.active - {key}, quarantine := q.quarantine + [Held(key, q.active[key])])
    else q
  }

  ghost function AfterAll(q: Queue, ops: seq<Op>, limits: Limits): Queue
    decreases |ops|
  {
    if ops == [] then q else AfterAll(AfterOp(q, ops[0], limits), ops[1..], limits)
  }

  // Conservation.

  function Copies(held: seq<Held>, key: Key): nat {
    if held == [] then 0 else Copies(held[..|held| - 1], key) + if held[|held| - 1].key == key then 1 else 0
  }

  function Places(q: Queue, key: Key): nat {
    (if key in q.active then 1 else 0) + Copies(q.quarantine, key) + (if key in q.acknowledged then 1 else 0)
  }

  /** A failed attempt that is recorded for a result no longer in the queue brings it back. */
  predicate Resurrects(q: Queue, op: Op) {
    op.Fail? && KeyOf(op.record.resultId) !in q.active && Validated(op.record).Some?
  }

  /** An operation other than another enqueue of it keeps a result in exactly one place, exactly unless it resurrects it;
      and only an acknowledgement takes it out of the unacknowledged ones. */
  lemma EachResultHasOnePlace(q: Queue, op: Op, key: Key, limits: Limits)
    requires Places(q, key) == 1
    requires op.Enqueue? ==> KeyOf(op.record.resultId) != key
    ensures Places(AfterOp(q, op, limits), key) == 1 <==> !(Resurrects(q, op) && KeyOf(op.record.resultId) == key)
    ensures key !in q.acknowledged && key in AfterOp(q, op, limits).acknowledged ==>
              op.Ack? && KeyOf(op.record.resultId) == key && key in q.active
  {
    match op
    case Enqueue(r, bytes) =>
    case QuarantineOne(k) =>
      if k in q.active {
        assert (q.quarantine + [Held(k, q.active[k])])[..|q.quarantine|] == q.quarantine;
      }
    case Corrupt(k, size) =>
    case Fail(r, code, message, now, jitter) =>
    case Ack(r) =>
  }

  /** The operations of a run leave a result alone: nobody enqueues it again or records a failed attempt of it once it
      has left the queue. */
  ghost predicate NeverResurrected(q: Queue, ops: seq<Op>, key: Key, limits: Limits)
    decreases |ops|
  {
    ops == [] ||
    (&& (ops[0].Enqueue? ==> KeyOf(ops[0].record.resultId) != key)
     && !(Resurrects(q, ops[0]) && KeyOf(ops[0].record.resultId) == key)
     && NeverResurrected(AfterOp(q, ops[0], limits), ops[1..], key, limits))
  }

  /** Pending results are conserved: from the moment one is accepted, it is in exactly one of the queue, the quarantine
      and the acknowledged results, whatever happens, and it stays unacknowledged until it is acknowledged; and while
      failed attempts are recorded of records on file, a readable file of it holds the payload that was accepted. */
  lemma {:induction false} ResultsAreConserved(q: Queue, r: Pending, bytes: nat, ops: seq<Op>, limits: Limits)
    requires Places(q, KeyOf(r.resultId)) == 0
    requires bytes <= limits.maxPayloadBytes && Admits(q, r, limits) && Validated(r).Some?
    requires NeverResurrected(AfterOp(q, Enqueue(r, bytes), limits), ops, KeyOf(r.resultId), limits)
    ensures var end := AfterAll(AfterOp(q, Enqueue(r, bytes), limits), ops, limits);
            && Places(end, KeyOf(r.resultId)) == 1
            && (RetriesFromFile(AfterOp(q, Enqueue(r, bytes), limits), ops, KeyOf(r.resultId), limits) ==>
                HoldsResult(end, KeyOf(r.resultId), r))
            && (KeyOf(r.resultId) in end.acknowledged ==>
                exists i :: 0 <= i < |ops| && ops[i].Ack? && KeyOf(ops[i].record.resultId) == KeyOf(r.resultId))
  {
    var accepted := AfterOp(q, Enqueue(r, bytes), limits);
    assert Places(accepted, KeyOf(r.resultId)) == 1;
    RunKeepsPlace(accepted, ops, KeyOf(r.resultId), limits);
    if RetriesFromFile(accepted, ops, KeyOf(r.resultId), limits) {
      RunKeepsResult(accepted, ops, r, limits);
    }
  }

  /** Two records of one result: what a retry does not change. */
  predicate SameResult(a: Pending, b: Pending) {
    a.resultId == b.resultId && a.payload == b.payload && a.createdAt == b.createdAt && a.bulk == b.bulk
  }

  /** A readable file under the key is the accepted result. */
  predicate HoldsResult(q: Queue, key: Key, r: Pending) {
    key in q.active && q.active[key].Good? ==> IsSound(q.active[key]) && SameResult(q.active[key].record, r)
  }

  /** Failed attempts of a result are recorded of the record as it is on file. */
  ghost predicate RetriesFromFile(q: Queue, ops: seq<Op>, key: Key, limits: Limits)
    decreases |ops|
  {
    ops == [] ||
    (&& (ops[0].Fail? && KeyOf(ops[0].record.resultId) == key ==> key in q.active && q.active[key] == Good(ops[0].record))
     && RetriesFromFile(AfterOp(q, ops[0], limits), ops[1..], key, limits))
  }

  lemma StepKeepsResult(q: Queue, op: Op, r: Pending, limits: Limits)
    requires var key := KeyOf(r.resultId);
             && HoldsResult(q, key, r) && (op.Enqueue? ==> KeyOf(op.record.resultId) != key)
             && (op.Fail? && KeyOf(op.record.resultId) == key ==> key in q.active && q.active[key] == Good(op.record))
    ensures HoldsResult(AfterOp(q, op, limits), KeyOf(r.resultId), r)
  {
    hide KeyOf, Admits, BaseDelay;
  }

  lemma {:induction false} RunKeepsResult(q: Queue, ops: seq<Op>, r: Pending, limits: Limits)
    requires HoldsResult(q, KeyOf(r.resultId), r)
    requires NeverResurrected(q, ops, KeyOf(r.resultId), limits) && RetriesFromFile(q, ops, KeyOf(r.resultId), limits)
    ensures HoldsResult(AfterAll(q, ops, limits), KeyOf(r.resultId), r)
    decreases |ops|
  {
    hide HoldsResult, AfterOp, KeyOf, Resurrects;
    if ops != [] {
      StepKeepsResult(q, ops[0], r, limits);
      RunKeepsResult(AfterOp(q, ops[0], limits), ops[1..], r, limits);
    }
  }

  /** The failed attempts of a result that a run records. */
  function Attempts(ops: seq<Op>, key: Key): nat {
    if ops == [] then 0
    else (if ops[0].Fail? && KeyOf(ops[0].record.resultId) == key then 1 else 0) + Attempts(ops[1..], key)
  }

  /** The error of the last of them, or the one there was. */
  function LastError(ops: seq<Op>, key: Key, error: string): string {
    if ops == [] then error
    else
      LastError(ops[1..], key,
                if ops[0].Fail? && KeyOf(ops[0].record.resultId) == key then ops[0].code else error)
  }

  lemma StepCountsAttempts(q: Queue, op: Op, key: Key, limits: Limits)
    requires key in q.active && q.active[key].Good? ==> IsSound(q.active[key])
    requires op.Enqueue? ==> KeyOf(op.record.resultId) != key
    requires op.Fail? && KeyOf(op.record.resultId) == key ==> key in q.active && q.active[key] == Good(op.record)
    ensures var after := AfterOp(q, op, limits);
            key in after.active && after.active[key].Good? ==>
              && key in q.active && q.active[key].Good?
              && after.active[key].record.attemptCount == q.active[key].record.attemptCount + Attempts([op], key)
              && after.active[key].record.lastErrorCode == LastError([op], key, q.active[key].record.lastErrorCode)
  {
    hide KeyOf, Admits, BaseDelay;
    assert [op][1..] == [];
  }

  /** While failed attempts are recorded of records on file, none is lost: a result's file counts them all, and holds the
      error of the last one. */
  lemma {:induction false} AttemptsAreCounted(q: Queue, ops: seq<Op>, r: Pending, limits: Limits)
    requires HoldsResult(q, KeyOf(r.resultId), r)
    requires NeverResurrected(q, ops, KeyOf(r.resultId), limits) && RetriesFromFile(q, ops, KeyOf(r.resultId), limits)
    ensures var key, end := KeyOf(r.resultId), AfterAll(q, ops, limits);
            key in end.active && end.active[key].Good? ==>
              && key in q.active && q.active[key].Good?
              && end.active[key].record.attemptCount == q.active[key].record.attemptCount + Attempts(ops, key)
              && end.active[key].record.lastErrorCode == LastError(ops, key, q.active[key].record.lastErrorCode)
    decreases |ops|
  {
    var key := KeyOf(r.resultId);
    if ops != [] {
      StepKeepsResult(q, ops[0], r, limits);
      StepCountsAttempts(q, ops[0], key, limits);
      FirstAttempt(ops, key);
      AttemptsAreCounted(AfterOp(q, ops[0], limits), ops[1..], r, limits);
    }
    hide AfterOp, KeyOf, Resurrects, IsSound, SameResult;
  }

  lemma FirstAttempt(ops: seq<Op>, key: Key)
    requires ops != []
    ensures Attempts(ops, key) == Attempts([ops[0]], key) + Attempts(ops[1..], key)
    ensures forall error :: LastError(ops, key, error) == LastError(ops[1..], key, LastError([ops[0]], key, error))
  {
    hide KeyOf;
    assert [ops[0]][1..] == [];
  }

  lemma {:induction false} RunKeepsPlace(q: Queue, ops: seq<Op>, key: Key, limits: Limits)
    requires Places(q, key) == 1 && NeverResurrected(q, ops, key, limits)
    ensures Places(AfterAll(q, ops, limits), key) == 1
    ensures key !in q.acknowledged && key in AfterAll(q, ops, limits).acknowledged ==>
              exists i :: 0 <= i < |ops| && ops[i].Ack? && KeyOf(ops[i].record.resultId) == key
    decreases |ops|
  {
    hide Places, AfterOp, Resurrects, KeyOf;
    if ops != [] {
      var next := AfterOp(q, ops[0], limits);
      EachResultHasOnePlace(q, ops[0], key, limits);
      RunKeepsPlace(next, ops[1..], key, limits);
      if key !in q.acknowledged && key in AfterAll(q, ops, limits).acknowledged && key !in next.acknowledged {
        var i :| 0 <= i < |ops[1..]| && ops[1..][i].Ack? && KeyOf(ops[1..][i].record.resultId) == key;
        assert ops[i + 1] == ops[1..][i];
      } else if key !in q.acknowledged && key in next.acknowledged {
        assert ops[0].Ack? && KeyOf(ops[0].record.resultId) == key;
      }
    }
  }

  /** Recording a failed attempt after the acknowledgement puts the result in two places at once. */
  lemma RetryAfterAckResurrects(r: Pending, code: string, message: string, now: int, jitter: int, limits: Limits)
    requires Validated(r).Some?
    ensures var q := Queue(map[KeyOf(r.resultId) := Good(r)], [], {});
            var acknowledged := AfterOp(q, Ack(r), limits);
            && Places(acknowledged, KeyOf(r.resultId)) == 1
            && Places(AfterOp(acknowledged, Fail(r, code, message, now, jitter), limits), KeyOf(r.resultId)) == 2
  {
  }

  /** Two ids that differ only in separators or case share a file: accepting the second replaces the first. */
  lemma SharedFileNamesReplace(q: Queue, first: Pending, second: Pending, bytes: nat, limits: Limits)
    requires KeyOf(first.resultId) == KeyOf(second.resultId)
    requires KeyOf(first.resultId) in q.active && q.active[KeyOf(first.resultId)] == Good(first)
    requires Validated(second).Some? && bytes <= limits.maxPayloadBytes && Admits(q, second, limits)
    ensures AfterOp(q, Enqueue(second, bytes), limits).active[KeyOf(first.resultId)] == Good(Validated(second).value)
    ensures Count(AfterOp(q, Enqueue(second, bytes), limits)) == Count(q)
  {
  }

  // Capacity.

  /** No operation takes the queue over its number of records, exactly unless it resurrects a result into a full queue. */
  lemma CountStaysWithin(q: Queue, op: Op, limits: Limits)
    requires Count(q) <= limits.maxRecords
    ensures Count(AfterOp(q, op, limits)) <= limits.maxRecords <==> !(Resurrects(q, op) && Count(q) == limits.maxRecords)
  {
    hide Validated, KeyOf, RecordBytes, Failed, Sum;
    match op
    case Enqueue(r, bytes) => PutCount(q, KeyOf(r.resultId), AfterOp(q, op, limits));
    case QuarantineOne(key) => PutCount(q, key, AfterOp(q, op, limits));
    case Corrupt(key, size) => PutCount(q, key, AfterOp(q, op, limits));
    case Fail(r, code, message, now, jitter) =>
      FailureKeepsIdentity(r, code, message, now, jitter);
      PutCount(q, KeyOf(r.resultId), AfterOp(q, op, limits));
    case Ack(r) => PutCount(q, KeyOf(r.resultId), AfterOp(q, op, limits));
  }

  lemma FailureKeepsIdentity(r: Pending, code: string, message: string, now: int, jitter: int)
    ensures var failed := Failed(r, code, message, now, jitter);
            failed.resultId == r.resultId && failed.bulk == r.bulk && (Validated(failed).Some? <==> Validated(r).Some?)
  {
  }

  /** How the number of files changes with one file put or taken away. */
  lemma PutCount(q: Queue, key: Key, after: Queue)
    ensures after.active.Keys == q.active.Keys + {key} ==> |after.active| == |q.active| + if key in q.active then 0 else 1
    ensures after.active.Keys == q.active.Keys - {key} ==> |after.active| == |q.active| - if key in q.active then 1 else 0
  {
  }

  lemma {:induction false} SumIsOfAnyOrder(sizes: map<Key, nat>, key: Key)
    requires key in sizes
    ensures Sum(sizes) == sizes[key] + Sum(sizes - {key})
    decreases |sizes|
  {
    assert exists k: Key {:trigger k in sizes} :: k in sizes && Sum(sizes) == sizes[k] + Sum(sizes - {k});
    var k: Key :| k in sizes && Sum(sizes) == sizes[k] + Sum(sizes - {k});
    if k != key {
      assert (sizes - {k}) - {key} == (sizes - {key}) - {k};
      SmallerMap(sizes, k);
      SmallerMap(sizes, key);
      SumIsOfAnyOrder(sizes - {k}, key);
      SumIsOfAnyOrder(sizes - {key}, k);
    }
  }

  lemma SmallerMap(sizes: map<Key, nat>, key: Key)
    requires key in sizes
    ensures |sizes - {key}| == |sizes| - 1
  {
    assert (sizes - {key}).Keys == sizes.Keys - {key};
  }

  lemma SumAfterPut(sizes: map<Key, nat>, key: Key, size: nat)
    ensures Sum(sizes[key := size]) == Sum(sizes) + size - if key in sizes then sizes[key] else 0
  {
    SumIsOfAnyOrder(sizes[key := size], key);
    if key in sizes {
      SumIsOfAnyOrder(sizes, key);
      assert sizes[key := size] - {key} == sizes - {key};
    } else {
      assert sizes[key := size] - {key} == sizes;
    }
  }

  // Bytes.

  const MAX_ATTEMPTS: nat := 0x7fff_ffff

  /** The most a record can grow after it was accepted, when error codes are at most this long. */
  function Growth(codeLength: nat): nat {
    6 * codeLength + 6 * MAX_ERROR_MESSAGE + 48
  }

  /** The part of a file's size that no retry adds. */
  function LightBytes(file: Stored, codeLength: nat): nat {
    if file.Good? then file.record.bulk + 36
    else if file.size <= Growth(codeLength) then 0
    else file.size - Growth(codeLength)
  }

  predicate IsModest(file: Stored, codeLength: nat) {
    file.Good? ==>
      && file.record.attemptCount <= MAX_ATTEMPTS
      && |file.record.lastErrorCode| <= codeLength && |file.record.lastErrorMessage| <= MAX_ERROR_MESSAGE
  }

  lemma {:induction false} DigitsOfBounded(n: nat, bound: nat, digits: nat)
    requires n <= bound && digits >= Digits(bound)
    ensures Digits(n) <= digits
    decreases n
  {
    if n >= 10 {
      DigitsOfBounded(n / 10, bound / 10, digits - 1);
    }
  }

  lemma AttemptDigits(n: nat)
    requires n <= MAX_ATTEMPTS
    ensures Digits(n) <= 10
  {
    assert Digits(2147) == 4;
    assert Digits(214748) == 6;
    assert Digits(21474836) == 8;
    assert Digits(MAX_ATTEMPTS) == 10;
    DigitsOfBounded(n, MAX_ATTEMPTS, 10);
  }

  /** A file is never lighter than its light part, nor heavier than that and its growth. */
  lemma FileWithinGrowth(file: Stored, codeLength: nat)
    requires IsModest(file, codeLength)
    ensures LightBytes(file, codeLength) <= FileBytes(file) <= LightBytes(file, codeLength) + Growth(codeLength)
  {
    if file.Good? {
      AttemptDigits(file.record.attemptCount);
    }
  }

  function Lights(files: map<Key, Stored>, codeLength: nat): map<Key, nat> {
    map k | k in files :: LightBytes(files[k], codeLength)
  }

  function HeldLight(held: seq<Held>, codeLength: nat): nat {
    if held == [] then 0 else HeldLight(held[..|held| - 1], codeLength) + LightBytes(held[|held| - 1].file, codeLength)
  }

  ghost function TotalLight(q: Queue, codeLength: nat): nat {
    Sum(Lights(q.active, codeLength)) + HeldLight(q.quarantine, codeLength)
  }

  ghost predicate Modest(q: Queue, limits: Limits, codeLength: nat) {
    && (forall k :: k in q.active ==> IsModest(q.active[k], codeLength))
    && (forall i :: 0 <= i < |q.quarantine| ==> IsModest(q.quarantine[i].file, codeLength))
    && TotalLight(q, codeLength) <= limits.maxTotalBytes
  }

  /** What a run does: new results start without a failure, retries are of records as they are on file, with codes of
      bounded length, and damage adds no bytes. */
  predicate Steady(q: Queue, op: Op, codeLength: nat) {
    match op
    case Enqueue(r, _) => IsModest(Good(r), codeLength)
    case QuarantineOne(_) => true
    case Corrupt(key, size) => key in q.active ==> size <= FileBytes(q.active[key])
    case Fail(r, code, _, _, _) =>
      && KeyOf(r.resultId) in q.active && q.active[KeyOf(r.resultId)] == Good(r)
      && |code| <= codeLength && r.attemptCount < MAX_ATTEMPTS
    case Ack(_) => true
  }

  lemma {:induction false} SumWithinGrowth(files: map<Key, Stored>, codeLength: nat)
    requires forall k :: k in files ==> IsModest(files[k], codeLength)
    ensures Sum(Lights(files, codeLength)) <= Sum(Sizes(files)) <= Sum(Lights(files, codeLength)) + |files| * Growth(codeLength)
    decreases |files|
  {
    hide IsModest, Growth, LightBytes, FileBytes, Sum;
    if files == map[] {
      assert Lights(files, codeLength) == map[] && Sizes(files) == map[];
      SumOfNothing();
    } else {
      var k :| k in files;
      var rest := files - {k};
      assert rest.Keys == files.Keys - {k};
      FileWithinGrowth(files[k], codeLength);
      SumWithinGrowth(rest, codeLength);
      SumIsOfAnyOrder(Lights(files, codeLength), k);
      SumIsOfAnyOrder(Sizes(files), k);
      assert Lights(files, codeLength) - {k} == Lights(rest, codeLength);
      assert Sizes(files) - {k} == Sizes(rest);
      GrowthOfAll(|rest|, 1, Growth(codeLength));
    }
  }

  lemma SumOfNothing()
    ensures Sum(map[]) == 0
  {
  }

  lemma {:induction false} HeldWithinGrowth(held: seq<Held>, codeLength: nat)
    requires forall i :: 0 <= i < |held| ==> IsModest(held[i].file, codeLength)
    ensures HeldLight(held, codeLength) <= HeldBytes(held) <= HeldLight(held, codeLength) + |held| * Growth(codeLength)
    decreases |held|
  {
    hide IsModest, Growth, LightBytes, FileBytes;
    if held != [] {
      HeldWithinGrowth(held[..|held| - 1], codeLength);
      FileWithinGrowth(held[|held| - 1].file, codeLength);
      assert |held| * Growth(codeLength) == (|held| - 1) * Growth(codeLength) + Growth(codeLength);
    }
  }

  /** The queue is over its byte limit by no more than the growth of its records. */
  lemma BytesWithinGrowth(q: Queue, limits: Limits, codeLength: nat)
    requires Modest(q, limits, codeLength)
    ensures TotalBytes(q) <= limits.maxTotalBytes + Count(q) * Growth(codeLength)
  {
    hide Sum, HeldBytes, HeldLight, IsModest, Growth, Lights, Sizes;
    SumWithinGrowth(q.active, codeLength);
    HeldWithinGrowth(q.quarantine, codeLength);
    GrowthOfAll(|q.active|, |q.quarantine|, Growth(codeLength));
  }

  lemma GrowthOfAll(a: nat, b: nat, growth: nat)
    ensures (a + b) * growth == a * growth + b * growth
  {
  }

  /** A record is admitted exactly if the queue with it, and without a file it replaces, is within both limits. */
  lemma AdmissionIsWithinLimit(q: Queue, r: Pending, limits: Limits)
    requires Validated(r).Some?
    ensures Admits(q, r, limits)
            <==> Count(Saved(q, r)) <= limits.maxRecords && TotalBytes(Saved(q, r)) <= limits.maxTotalBytes
  {
    var key, file := KeyOf(r.resultId), Good(Validated(r).value);
    SumAfterPut(Sizes(q.active), key, FileBytes(file));
    assert Sizes(q.active[key := file]) == Sizes(q.active)[key := FileBytes(file)];
    PutCount(q, key, Saved(q, r));
  }

  /** Every step of a steady run keeps the light part of the queue within the byte limit. */
  lemma StepStaysModest(q: Queue, op: Op, limits: Limits, codeLength: nat)
    requires Modest(q, limits, codeLength) && Steady(q, op, codeLength)
    ensures Modest(AfterOp(q, op, limits), limits, codeLength)
  {
    hide Sum, KeyOf;
    match op
    case Enqueue(r, bytes) => EnqueueStaysModest(q, r, bytes, limits, codeLength);
    case QuarantineOne(key) =>
      if key in q.active {
        var held := Held(key, q.active[key]);
        assert (q.quarantine + [held])[..|q.quarantine|] == q.quarantine;
        LightWithout(q.active, key, codeLength);
      }
    case Corrupt(key, size) =>
      if key in q.active {
        FileWithinGrowth(q.active[key], codeLength);
        LightWith(q.active, key, Unreadable(size), codeLength);
      }
    case Fail(r, code, message, now, jitter) =>
      FailureKeepsIdentity(r, code, message, now, jitter);
      if Validated(r).Some? {
        LightWith(q.active, KeyOf(r.resultId), Good(Validated(Failed(r, code, message, now, jitter)).value), codeLength);
      }
    case Ack(r) =>
      if KeyOf(r.resultId) in q.active {
        LightWithout(q.active, KeyOf(r.resultId), codeLength);
      }
  }

  lemma LightWith(files: map<Key, Stored>, key: Key, file: Stored, codeLength: nat)
    ensures Sum(Lights(files[key := file], codeLength))
            == Sum(Lights(files, codeLength)) + LightBytes(file, codeLength)
               - if key in files then LightBytes(files[key], codeLength) else 0
  {
    hide LightBytes, Sum;
    SumAfterPut(Lights(files, codeLength), key, LightBytes(file, codeLength));
    assert Lights(files[key := file], codeLength) == Lights(files, codeLength)[key := LightBytes(file, codeLength)];
  }

  lemma LightWithout(files: map<Key, Stored>, key: Key, codeLength: nat)
    requires key in files
    ensures Sum(Lights(files - {key}, codeLength)) == Sum(Lights(files, codeLength)) - LightBytes(files[key], codeLength)
  {
    hide LightBytes, Sum;
    SumIsOfAnyOrder(Lights(files, codeLength), key);
    assert Lights(files - {key}, codeLength) == Lights(files, codeLength) - {key};
  }

  lemma EnqueueStaysModest(q: Queue, r: Pending, bytes: nat, limits: Limits, codeLength: nat)
    requires Modest(q, limits, codeLength) && IsModest(Good(r), codeLength)
    ensures Modest(AfterOp(q, Enqueue(r, bytes), limits), limits, codeLength)
  {
    var after := AfterOp(q, Enqueue(r, bytes), limits);
    if after != q {
      AdmissionIsWithinLimit(q, r, limits);
      SumWithinGrowth(after.active, codeLength);
      HeldWithinGrowth(after.quarantine, codeLength);
    }
  }

  /** A run with those properties, and without a retry into a full queue. */
  ghost predicate SteadyRun(q: Queue, ops: seq<Op>, limits: Limits, codeLength: nat)
    decreases |ops|
  {
    ops == [] ||
    (Steady(q, ops[0], codeLength) && SteadyRun(AfterOp(q, ops[0], limits), ops[1..], limits, codeLength))
  }

  /** Over a whole run the queue never holds more than its number of records, nor more bytes than its limit and the fixed
      growth of each. */
  lemma {:induction false} CapacityHolds(q: Queue, ops: seq<Op>, limits: Limits, codeLength: nat)
    requires Count(q) <= limits.maxRecords && Modest(q, limits, codeLength) && SteadyRun(q, ops, limits, codeLength)
    ensures Count(AfterAll(q, ops, limits)) <= limits.maxRecords
    ensures TotalBytes(AfterAll(q, ops, limits)) <= limits.maxTotalBytes + limits.maxRecords * Growth(codeLength)
    decreases |ops|
  {
    hide Modest, Growth, Sum, KeyOf, Resurrects, TotalBytes;
    if ops == [] {
      BytesWithinGrowth(q, limits, codeLength);
      assert Count(q) * Growth(codeLength) <= limits.maxRecords * Growth(codeLength);
    } else {
      SteadyNeverResurrects(q, ops[0], codeLength);
      CountStaysWithin(q, ops[0], limits);
      StepStaysModest(q, ops[0], limits, codeLength);
      hide Steady, AfterOp, Count;
      CapacityHolds(AfterOp(q, ops[0], limits), ops[1..], limits, codeLength);
    }
  }

  lemma SteadyNeverResurrects(q: Queue, op: Op, codeLength: nat)
    requires Steady(q, op, codeLength)
    ensures !Resurrects(q, op)
  {
  }

  // The queue itself.

  predicate Sorted(records: seq<Pending>) {
    forall i, j :: 0 <= i < j < |records| ==> records[i].createdAt <= records[j].createdAt
  }

  function Inserted(records: seq<Pending>, r: Pending): (all: seq<Pending>)
    requires Sorted(records)
    ensures Sorted(all) && |all| == |records| + 1
    ensures forall x :: x in all <==> x in records || x == r
  {
    if records == [] then [r]
    else if r.createdAt < records[0].createdAt then [r] + records
    else
      var rest := Inserted(records[1..], r);
      assert forall x :: x in rest ==> records[0].createdAt <= x.createdAt;
      assert records == [records[0]] + records[1..];
      [records[0]] + rest
  }

  predicate IsDue(r: Pending, dueAt: Option<int>) {
    dueAt.None? || r.nextAttemptAt <= dueAt.value
  }

  function DueKeys(files: map<Key, Stored>, keys: set<Key>, dueAt: Option<int>): set<Key> {
    set k | k in keys && k in files && IsSound(files[k]) && IsDue(files[k].record, dueAt)
  }

  lemma OneMoreKey(files: map<Key, Stored>, keys: set<Key>, key: Key, dueAt: Option<int>)
    requires key in files && key !in keys
    ensures |DueKeys(files, keys + {key}, dueAt)|
            == |DueKeys(files, keys, dueAt)| + if IsSound(files[key]) && IsDue(files[key].record, dueAt) then 1 else 0
  {
    hide Validated;
    if IsSound(files[key]) && IsDue(files[key].record, dueAt) {
      assert DueKeys(files, keys + {key}, dueAt) == DueKeys(files, keys, dueAt) + {key};
    } else {
      assert DueKeys(files, keys + {key}, dueAt) == DueKeys(files, keys, dueAt);
    }
  }

  const MAX_ARCHIVED := 1000

  class PendingResultQueue {
    const limits: Limits
    const retention: int
    var active: map<Key, Stored>
    var quarantine: seq<Held>
    var sent: map<string, int>
    ghost var acknowledged: set<Key>

    ghost function Contents(): Queue
      reads this
    {
      Queue(active, quarantine, acknowledged)
    }

    constructor (limits: Limits, retention: int)
      ensures this.limits == limits && this.retention == retention
      ensures Contents() == Queue(map[], [], {}) && sent == map[]
    {
      this.limits, this.retention := limits, retention;
      active, quarantine, sent, acknowledged := map[], [], map[], {};
    }

    method MeasureActive() returns (bytes: nat)
      ensures bytes == Sum(Sizes(active))
    {
      hide FileBytes, Sum;
      SumOfNothing();
      bytes := 0;
      var todo := active;
      assert Sizes(map[]) == map[];
      while todo != map[]
        invariant bytes + Sum(Sizes(todo)) == Sum(Sizes(active))
        decreases |todo|
      {
        var k :| k in todo;
        SumIsOfAnyOrder(Sizes(todo), k);
        assert Sizes(todo) - {k} == Sizes(todo - {k});
        assert (todo - {k}).Keys == todo.Keys - {k};
        bytes := bytes + FileBytes(todo[k]);
        todo := todo - {k};
      }
      assert todo == map[];
    }

    method MeasureQuarantine() returns (bytes: nat)
      ensures bytes == HeldBytes(quarantine)
    {
      bytes := 0;
      for i := 0 to |quarantine|
        invariant bytes == HeldBytes(quarantine[..i])
      {
        assert quarantine[..i + 1][..i] == quarantine[..i];
        bytes := bytes + FileBytes(quarantine[i].file);
      }
      assert quarantine[..|quarantine|] == quarantine;
    }

    /** EnforceLimits for an incoming record. */
    method EnforceLimits(incoming: Pending) returns (fits: bool)
      ensures fits <==> Admits(Contents(), incoming, limits)
    {
      hide Sum, HeldBytes, RecordBytes;
      var total := MeasureActive();
      var held := MeasureQuarantine();
      var count: int, bytes: int := |active| + |quarantine|, total + held + RecordBytes(incoming);
      var key := KeyOf(incoming.resultId);
      if key in active {
        bytes := bytes - FileBytes(active[key]);
      } else {
        count := count + 1;
      }
      fits := count <= limits.maxRecords && bytes <= limits.maxTotalBytes;
    }

    /** Save: a record that validates replaces the file of its id. */
    method Save(r: Pending) returns (ok: bool)
      modifies this`active
      ensures ok <==> Validated(r).Some?
      ensures Contents() == Saved(old(Contents()), r)
    {
      var validated := Validated(r);
      ok := validated.Some?;
      if ok {
        active := active[KeyOf(r.resultId) := Good(validated.value)];
      }
    }

    /** Enqueue: refused entirely, or accepted within the limits. */
    method Enqueue(r: Pending, payloadBytes: nat) returns (result: Result<Pending>)
      modifies this`active
      ensures Contents() == AfterOp(old(Contents()), Op.Enqueue(r, payloadBytes), limits)
      ensures result.Ok? <==>
                payloadBytes <= limits.maxPayloadBytes && old(Admits(Contents(), r, limits)) && Validated(r).Some?
      ensures result.Err? ==> Contents() == old(Contents())
    {
      hide Admits;
      if payloadBytes > limits.maxPayloadBytes {
        return Err("RESULT_PAYLOAD_INVALID");
      }
      var fits := EnforceLimits(r);
      if !fits {
        return Err("RESULT_QUEUE_FULL");
      }
      var ok := Save(r);
      result := if ok then Ok(r) else Err("RESULT_PAYLOAD_INVALID");
    }

    /** LoadAll: the sound records, or those due, in order of creation; the rest goes to quarantine, except files that
        cannot be moved. */
    method LoadAll(dueAt: Option<int>, stuck: set<Key>) returns (records: seq<Pending>, ghost ops: seq<Op>)
      modifies this`active, this`quarantine
      ensures forall op :: op in ops ==> op.QuarantineOne? && op.key in old(active) && !IsSound(old(active)[op.key])
      ensures Contents() == AfterAll(old(Contents()), ops, limits)
      ensures forall k :: k in active <==> k in old(active) && (IsSound(old(active)[k]) || k in stuck)
      ensures forall k :: k in active ==> active[k] == old(active)[k]
      ensures Sorted(records)
      ensures forall r :: r in records <==>
                exists k :: k in active && IsSound(active[k]) && active[k].record == r && IsDue(r, dueAt)
      ensures |records| == |DueKeys(active, active.Keys, dueAt)|
    {
      hide Validated, AfterOp;
      records, ops := [], [];
      var todo := active.Keys;
      ghost var before := active;
      while todo != {}
        invariant todo <= before.Keys
        invariant forall op :: op in ops ==> op.QuarantineOne? && op.key in before && !IsSound(before[op.key])
        invariant Contents() == AfterAll(old(Contents()), ops, limits)
        invariant forall k :: k in active <==> k in before && (k in todo || IsSound(before[k]) || k in stuck)
        invariant forall k :: k in active ==> active[k] == before[k]
        invariant Sorted(records)
        invariant forall r :: r in records <==>
                    exists k :: k in before && k !in todo && IsSound(before[k]) && before[k].record == r && IsDue(r, dueAt)
        invariant |records| == |DueKeys(before, before.Keys - todo, dueAt)|
      {
        var k :| k in todo;
        OneMoreKey(before, before.Keys - todo, k, dueAt);
        assert before.Keys - (todo - {k}) == before.Keys - todo + {k};
        todo := todo - {k};
        if IsSound(active[k]) {
          if IsDue(active[k].record, dueAt) {
            records := Inserted(records, active[k].record);
          }
        } else if k !in stuck {
          ghost var step := QuarantineOne(k);
          OneMoreStep(old(Contents()), ops, step, limits);
          QuarantineMoves(Contents(), k, limits);
          quarantine := quarantine + [Held(k, active[k])];
          active := active - {k};
          ops := ops + [step];
        }
      }
      assert before.Keys - todo == before.Keys;
      assert DueKeys(active, active.Keys, dueAt) == DueKeys(before, before.Keys, dueAt);
    }

    method MarkAttemptFailed(r: Pending, code: string, message: string, now: int, jitter: int) returns (ok: bool)
      requires 0 <= jitter < JitterBound(BaseDelay(r.attemptCount + 1))
      modifies this`active
      ensures Contents() == AfterOp(old(Contents()), Fail(r, code, message, now, jitter), limits)
      ensures ok ==> now < Failed(r, code, message, now, jitter).nextAttemptAt < now + 930 * TICKS_PER_SECOND
    {
      RetryDelayBounds(r.attemptCount + 1, r.attemptCount + 1, jitter);
      ok := Save(Failed(r, code, message, now, jitter));
    }

    /** MarkSent: the file moves to the archive, whose retention starts now. */
    method MarkSent(r: Pending, name: string, now: int)
      modifies this`active, this`sent, this`acknowledged
      ensures Contents() == AfterOp(old(Contents()), Ack(r), limits)
      ensures KeyOf(r.resultId) !in old(active) ==> sent == old(sent)
      ensures KeyOf(r.resultId) in old(active) ==> Pruned(old(sent)[name := now], sent, now - retention)
    {
      var key := KeyOf(r.resultId);
      if key !in active {
        return;
      }
      active := active - {key};
      acknowledged := acknowledged + {key};
      sent := sent[name := now];
      PruneArchive(now - retention);
    }

    /** Keeps the newest archived results, and of these the ones still in their retention. */
    method PruneArchive(oldest: int)
      modifies this`sent
      ensures Pruned(old(sent), sent, oldest)
    {
      ghost var before := sent;
      while |sent| > MAX_ARCHIVED
        invariant sent.Keys <= before.Keys && forall n :: n in sent ==> sent[n] == before[n]
        invariant |sent| >= MAX_ARCHIVED || sent == before
        invariant forall n, m :: n in before && n !in sent && m in sent ==> before[n] <= before[m]
        decreases |sent|
      {
        var n := Oldest();
        assert (sent - {n}).Keys == sent.Keys - {n};
        sent := sent - {n};
      }
      ghost var newest := sent;
      sent := map n | n in sent && sent[n] >= oldest :: sent[n];
      assert sent.Keys <= newest.Keys;
      MapSize(sent, newest);
      forall n | n in before && n !in sent
        ensures before[n] < oldest || TooMany(before, n)
      {
        if n !in newest {
          assert newest.Keys <= set m | m in before && m != n && before[n] <= before[m];
          SetSize(newest.Keys, set m | m in before && m != n && before[n] <= before[m]);
        }
      }
    }

    method Oldest() returns (oldest: string)
      requires sent != map[]
      ensures oldest in sent && forall n :: n in sent ==> sent[oldest] <= sent[n]
    {
      oldest :| oldest in sent;
      var todo := sent.Keys;
      while todo != {}
        invariant oldest in sent && todo <= sent.Keys
        invariant forall n :: n in sent && n !in todo ==> sent[oldest] <= sent[n]
      {
        var n :| n in todo;
        if sent[n] < sent[oldest] {
          oldest := n;
        }
        todo := todo - {n};
      }
    }
  }

  /** At least a thousand archived results are as new as this one. */
  predicate TooMany(archive: map<string, int>, name: string)
    requires name in archive
  {
    |set m | m in archive && m != name && archive[name] <= archive[m]| >= MAX_ARCHIVED
  }

  /** What pruning leaves: at most a thousand results in their retention; what it deletes is out of retention, or a
      thousand others are as new. */
  predicate Pruned(before: map<string, int>, after: map<string, int>, oldest: int) {
    && |after| <= MAX_ARCHIVED
    && (forall n :: n in after ==> n in before && after[n] == before[n] && before[n] >= oldest)
    && (forall n :: n in before && n !in after ==> before[n] < oldest || TooMany(before, n))
  }

  lemma SetSize(small: set<string>, large: set<string>)
    requires small <= large
    ensures |small| <= |large|
  {
    if small != {} {
      var x :| x in small;
      SetSize(small - {x}, large - {x});
    }
  }

  lemma MapSize(small: map<string, int>, large: map<string, int>)
    requires small.Keys <= large.Keys
    ensures |small| <= |large|
  {
    SetSize(small.Keys, large.Keys);
  }

  lemma {:induction false} OneMoreStep(q: Queue, ops: seq<Op>, op: Op, limits: Limits)
    ensures AfterAll(q, ops + [op], limits) == AfterOp(AfterAll(q, ops, limits), op, limits)
    decreases |ops|
  {
    hide AfterOp;
    if ops == [] {
      assert ops + [op] == [op];
    } else {
      assert (ops + [op])[1..] == ops[1..] + [op];
      OneMoreStep(AfterOp(q, ops[0], limits), ops[1..], op, limits);
    }
  }

  lemma QuarantineMoves(q: Queue, key: Key, limits: Limits)
    requires key in q.active && !IsSound(q.active[key])
    ensures AfterOp(q, QuarantineOne(key), limits)
            == q.(active := q.active - {key}, quarantine := q.quarantine + [Held(key, q.active[key])])
  {
  }
}
