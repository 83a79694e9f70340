/** The call-log routes. Every route runs the `auth` middleware first.

    - `POST /`: a device uploads a batch of raw call records; each becomes an
      insert-if-absent on the key (deviceId, clientNumber, callType,
      timestamp), and the reply counts the rows actually inserted.
    - `GET /`: filters built from the query string, all combined with AND,
      then newest first, then skip/limit paging, with the total match count.
    - `PUT /:id`: sets the free-text `status` of one call log. */
module CallLogs {
  import opened Common
  import opened Models
  import Db
  import Auth

  // =====================================================================
  // getCallType

  /** The label stored for a device's numeric call-type code. */
  function CallTypeLabel(code: int): (typeName: string)
    ensures code == 1 ==> typeName == "INCOMING"
    ensures code == 2 ==> typeName == "OUTGOING"
    ensures code == 3 ==> typeName == "MISSED"
    ensures code == 5 ==> typeName == "REJECTED"
    ensures typeName in ["INCOMING", "OUTGOING", "MISSED", "REJECTED", "UNKNOWN"]
    ensures typeName == "UNKNOWN" <==> code !in {1, 2, 3, 5}
  {
    match code
    case 1 => "INCOMING"
    case 2 => "OUTGOING"
    case 3 => "MISSED"
    case 5 => "REJECTED"
    case _ => "UNKNOWN"
  }

  /** The four known codes get four different labels. */
  lemma CallTypeLabelInjective(a: int, b: int)
    requires a in {1, 2, 3, 5} && b in {1, 2, 3, 5}
    ensures CallTypeLabel(a) == CallTypeLabel(b) ==> a == b
  {
  }

  /** What a route answers once the middleware let the request through, or
      the middleware's own error response. */
  datatype Guarded<R> = Refused(status: int, message: string) | Served(response: R)

  // =====================================================================
  // POST /: batch ingestion

  /** One raw record from the device: `{type, date, number, name, duration}`;
      `date` is the parsed call start in milliseconds. */
  datatype RawLog = RawLog(code: int, date: int, number: string, name: Option<string>, duration: int)

  /** The request body: `{logs, device, location}`, each possibly absent. */
  datatype IngestBody = IngestBody(logs: Option<seq<RawLog>>, device: Option<string>, location: Option<string>)

  /** The deduplication key of a call log. */
  datatype Key = Key(deviceId: string, clientNumber: string, callType: string, timestamp: int)

  function KeyOf(e: CallLog): Key {
    Key(e.deviceId, e.clientNumber, e.callType, e.timestamp)
  }

  /** One `updateOne` with `upsert: true`: its filter and the document its
      `$setOnInsert` creates when nothing matches. */
  datatype UpsertOp = UpsertOp(filter: Key, onInsert: CallLog)

  /** The operation `logs.map` builds for one raw record. */
  function OpFor(log: RawLog, deviceId: string, location: string): (op: UpsertOp)
    ensures KeyOf(op.onInsert) == op.filter
  {
    var callType := CallTypeLabel(log.code);
    UpsertOp(
      Key(deviceId, log.number, callType, log.date),
      CallLog(deviceId, OrElse(log.name, ""), log.number, callType, log.duration, log.date, location, "", None))
  }

  /** Every operation's inserted document satisfies its own filter. */
  predicate SelfMatching(ops: seq<UpsertOp>) {
    forall j :: 0 <= j < |ops| ==> KeyOf(ops[j].onInsert) == ops[j].filter
  }

  /** `bulkOps`: one operation per raw record, in order. */
  function BuildOps(logs: seq<RawLog>, deviceId: string, location: string): (ops: seq<UpsertOp>)
    ensures |ops| == |logs|
    ensures SelfMatching(ops)
  {
    seq(|logs|, i requires 0 <= i < |logs| => OpFor(logs[i], deviceId, location))
  }

  predicate HasKey(docs: seq<CallLog>, k: Key) {
    exists i :: 0 <= i < |docs| && KeyOf(docs[i]) == k
  }

  /** No two stored call logs share a key. */
  predicate KeysUnique(docs: seq<CallLog>) {
    forall i, j :: 0 <= i < j < |docs| ==> KeyOf(docs[i]) != KeyOf(docs[j])
  }

  /** One upsert: a no-op when a document matches the filter, otherwise an
      insert; the flag says whether it inserted. */
  function ApplyOne(docs: seq<CallLog>, op: UpsertOp): (r: (seq<CallLog>, bool))
    ensures r.1 <==> !HasKey(docs, op.filter)
    ensures r.0 == if r.1 then docs + [op.onInsert] else docs
    ensures KeyOf(op.onInsert) == op.filter ==> HasKey(r.0, op.filter)
  {
    if HasKey(docs, op.filter) then (docs, false)
    else
      assert (docs + [op.onInsert])[|docs|] == op.onInsert;
      (docs + [op.onInsert], true)
  }

  /** `CallLog.bulkWrite(bulkOps)`, the operations applied one after another;
      the count is `upsertedCount`. Existing documents are a prefix of the
      result, and the result grows by exactly the count. */
  function ApplyOps(docs: seq<CallLog>, ops: seq<UpsertOp>): (r: (seq<CallLog>, nat))
    ensures docs <= r.0
    ensures |r.0| == |docs| + r.1
    ensures r.1 <= |ops|
    decreases |ops|
  {
    if ops == [] then (docs, 0)
    else
      var (next, inserted) := ApplyOne(docs, ops[0]);
      var (last, count) := ApplyOps(next, ops[1..]);
      (last, count + if inserted then 1 else 0)
  }

  /** After the bulk write every operation's key is stored. */
  lemma {:induction false} ApplyOpsStoresEveryKey(docs: seq<CallLog>, ops: seq<UpsertOp>)
    requires SelfMatching(ops)
    ensures forall j :: 0 <= j < |ops| ==> HasKey(ApplyOps(docs, ops).0, ops[j].filter)
    decreases |ops|
  {
    if ops != [] {
      var next := ApplyOne(docs, ops[0]).0;
      assert SelfMatching(ops[1..]) by {
        forall j | 0 <= j < |ops| - 1 ensures KeyOf(ops[1..][j].onInsert) == ops[1..][j].filter {
          assert ops[1..][j] == ops[j + 1];
        }
      }
      ApplyOpsStoresEveryKey(next, ops[1..]);
      var last := ApplyOps(docs, ops).0;
      assert HasKey(next, ops[0].filter) by {
        if !HasKey(docs, ops[0].filter) {
          assert KeyOf(next[|docs|]) == ops[0].filter;
        }
      }
      assert HasKey(last, ops[0].filter) by {
        var i :| 0 <= i < |next| && KeyOf(next[i]) == ops[0].filter;
        assert last[i] == next[i];
      }
      forall j | 0 <= j < |ops| ensures HasKey(last, ops[j].filter) {
        if j > 0 {
          assert ops[j] == ops[1..][j - 1];
        }
      }
    }
  }

  /** A bulk write whose every key is already stored changes nothing and
      inserts nothing. */
  lemma {:induction false} ApplyOpsWhenAllPresent(docs: seq<CallLog>, ops: seq<UpsertOp>)
    requires forall j :: 0 <= j < |ops| ==> HasKey(docs, ops[j].filter)
    ensures ApplyOps(docs, ops) == (docs, 0)
    decreases |ops|
  {
    if ops != [] {
      assert HasKey(docs, ops[0].filter);
      forall j | 0 <= j < |ops| - 1 ensures HasKey(docs, ops[1..][j].filter) {
        assert ops[1..][j] == ops[j + 1];
      }
      ApplyOpsWhenAllPresent(docs, ops[1..]);
    }
  }

  /** Re-running the same bulk write on its own result is a no-op reporting 0. */
  lemma ApplyOpsIdempotent(docs: seq<CallLog>, ops: seq<UpsertOp>)
    requires SelfMatching(ops)
    ensures ApplyOps(ApplyOps(docs, ops).0, ops) == (ApplyOps(docs, ops).0, 0)
  {
    ApplyOpsStoresEveryKey(docs, ops);
    ApplyOpsWhenAllPresent(ApplyOps(docs, ops).0, ops);
  }

  /** Every row the bulk write adds is the `$setOnInsert` document of one of
      its operations, and its key was absent from everything stored before it. */
  lemma {:induction false} ApplyOpsInsertsOnlyAbsent(docs: seq<CallLog>, ops: seq<UpsertOp>)
    requires SelfMatching(ops)
    ensures forall k :: |docs| <= k < |ApplyOps(docs, ops).0| ==>
              (exists j :: 0 <= j < |ops| && ApplyOps(docs, ops).0[k] == ops[j].onInsert)
    ensures forall k :: |docs| <= k < |ApplyOps(docs, ops).0| ==>
              !HasKey(ApplyOps(docs, ops).0[..k], KeyOf(ApplyOps(docs, ops).0[k]))
    decreases |ops|
  {
    if ops != [] {
      var (next, inserted) := ApplyOne(docs, ops[0]);
      var last := ApplyOps(docs, ops).0;
      assert SelfMatching(ops[1..]) by {
        forall j | 0 <= j < |ops| - 1 ensures KeyOf(ops[1..][j].onInsert) == ops[1..][j].filter {
          assert ops[1..][j] == ops[j + 1];
        }
      }
      ApplyOpsInsertsOnlyAbsent(next, ops[1..]);
      assert last == ApplyOps(next, ops[1..]).0;
      forall k | |docs| <= k < |last|
        ensures (exists j :: 0 <= j < |ops| && last[k] == ops[j].onInsert)
        ensures !HasKey(last[..k], KeyOf(last[k]))
      {
        if k < |next| {
          assert inserted && k == |docs|;
          assert last[k] == next[k] == ops[0].onInsert;
          assert 0 < |ops| && last[k] == ops[0].onInsert;
          assert last[..k] == docs;
        } else {
          var j :| 0 <= j < |ops| - 1 && last[k] == ops[1..][j].onInsert;
          assert 0 <= j + 1 < |ops| && last[k] == ops[j + 1].onInsert;
        }
      }
    } else {
      assert ApplyOps(docs, ops).0 == docs;
    }
  }

  /** The bulk write keeps keys unique. */
  lemma {:induction false} ApplyOpsKeepsKeysUnique(docs: seq<CallLog>, ops: seq<UpsertOp>)
    requires SelfMatching(ops) && KeysUnique(docs)
    ensures KeysUnique(ApplyOps(docs, ops).0)
  {
    var last := ApplyOps(docs, ops).0;
    ApplyOpsInsertsOnlyAbsent(docs, ops);
    forall i, j | 0 <= i < j < |last| ensures KeyOf(last[i]) != KeyOf(last[j]) {
      if j < |docs| {
        assert last[i] == docs[i] && last[j] == docs[j];
      } else {
        assert last[..j][i] == last[i];
      }
    }
  }

  /** The reply of `POST /` (after the middleware). */
  datatype IngestResponse = NoLogsProvided | Saved(inserted: nat) | NoNewLogs {
    function Status(): int { if NoLogsProvided? then 400 else 200 }
  }

  /** The route's effect on the stored call logs and its reply. */
  function Ingestion(docs: seq<CallLog>, body: IngestBody): (r: (seq<CallLog>, IngestResponse))
    ensures docs <= r.0
    ensures r.1.Saved? ==> |r.0| == |docs| + r.1.inserted
    ensures !r.1.Saved? ==> r.0 == docs
    ensures r.1.NoLogsProvided? <==> body.logs.None? || body.logs.value == []
    ensures !r.1.NoLogsProvided? ==> r.1.Saved?
  {
    var logs := if body.logs.Some? then body.logs.value else [];
    var deviceId := OrElse(body.device, "");
    var location := OrElse(body.location, "");
    if |logs| == 0 then (docs, NoLogsProvided)
    else
      var ops := BuildOps(logs, deviceId, location);
      if |ops| > 0 then
        var (stored, inserted) := ApplyOps(docs, ops);
        (stored, Saved(inserted))
      else (docs, NoNewLogs)
  }

  /** A missing or empty batch is answered 400 "No logs provided" and changes
      nothing. */
  lemma EmptyBatchRejected(docs: seq<CallLog>, body: IngestBody)
    requires body.logs.None? || body.logs.value == []
    ensures Ingestion(docs, body) == (docs, NoLogsProvided)
  {
  }

  /** A non-empty batch always reaches the bulk write: "No new logs to save."
      is never the reply. */
  lemma NoNewLogsUnreachable(docs: seq<CallLog>, body: IngestBody)
    ensures Ingestion(docs, body).1 != NoNewLogs
  {
  }

  /** After a non-empty batch every record's key is stored, whether it was
      inserted now or was already there. */
  lemma IngestionStoresEveryRecord(docs: seq<CallLog>, body: IngestBody)
    requires body.logs.Some? && body.logs.value != []
    ensures forall i :: 0 <= i < |body.logs.value| ==>
              HasKey(Ingestion(docs, body).0,
                     Key(OrElse(body.device, ""), body.logs.value[i].number,
                         CallTypeLabel(body.logs.value[i].code), body.logs.value[i].date))
  {
    var logs := body.logs.value;
    var ops := BuildOps(logs, OrElse(body.device, ""), OrElse(body.location, ""));
    ApplyOpsStoresEveryKey(docs, ops);
    forall i | 0 <= i < |logs|
      ensures HasKey(Ingestion(docs, body).0,
                     Key(OrElse(body.device, ""), logs[i].number, CallTypeLabel(logs[i].code), logs[i].date))
    {
      assert ops[i].filter == Key(OrElse(body.device, ""), logs[i].number, CallTypeLabel(logs[i].code), logs[i].date);
    }
  }

  /** Submitting the same batch again leaves the store as it is and reports
      that 0 logs were saved. */
  lemma ResubmissionSavesNothing(docs: seq<CallLog>, body: IngestBody)
    requires Ingestion(docs, body).1.Saved?
    ensures Ingestion(Ingestion(docs, body).0, body) == (Ingestion(docs, body).0, Saved(0))
  {
    var logs := body.logs.value;
    var ops := BuildOps(logs, OrElse(body.device, ""), OrElse(body.location, ""));
    ApplyOpsIdempotent(docs, ops);
  }

  /** Each newly stored row is built from one raw record of the batch: key
      fields and duration copied, `callerName` defaulting to "", `deviceId`
      and `location` from the body (defaulting to ""), `status` "" and no
      recording; and no earlier row had its key. */
  lemma InsertedRowsComeFromBatch(docs: seq<CallLog>, body: IngestBody)
    requires Ingestion(docs, body).1.Saved?
    ensures forall k :: |docs| <= k < |Ingestion(docs, body).0| ==>
              exists i :: 0 <= i < |body.logs.value| &&
                Ingestion(docs, body).0[k] == CallLog(
                  OrElse(body.device, ""), OrElse(body.logs.value[i].name, ""), body.logs.value[i].number,
                  CallTypeLabel(body.logs.value[i].code), body.logs.value[i].duration, body.logs.value[i].date,
                  OrElse(body.location, ""), "", None)
    ensures forall k :: |docs| <= k < |Ingestion(docs, body).0| ==>
              !HasKey(Ingestion(docs, body).0[..k], KeyOf(Ingestion(docs, body).0[k]))
  {
    var logs := body.logs.value;
    var ops := BuildOps(logs, OrElse(body.device, ""), OrElse(body.location, ""));
    ApplyOpsInsertsOnlyAbsent(docs, ops);
    var stored := Ingestion(docs, body).0;
    forall k | |docs| <= k < |stored|
      ensures exists i :: 0 <= i < |logs| &&
                stored[k] == CallLog(
                  OrElse(body.device, ""), OrElse(logs[i].name, ""), logs[i].number,
                  CallTypeLabel(logs[i].code), logs[i].duration, logs[i].date,
                  OrElse(body.location, ""), "", None)
    {
      var j :| 0 <= j < |ops| && stored[k] == ops[j].onInsert;
      assert ops[j] == OpFor(logs[j], OrElse(body.device, ""), OrElse(body.location, ""));
    }
  }

  /** Ingestion keeps the deduplication key unique across the store. */
  lemma IngestionKeepsKeysUnique(docs: seq<CallLog>, body: IngestBody)
    requires KeysUnique(docs)
    ensures KeysUnique(Ingestion(docs, body).0)
  {
    if Ingestion(docs, body).1.Saved? {
      var ops := BuildOps(body.logs.value, OrElse(body.device, ""), OrElse(body.location, ""));
      ApplyOpsKeepsKeysUnique(docs, ops);
    }
  }

  /** `POST /` with the middleware in front of it. */
  method Ingest(store: Db.Collection<CallLog>, req: Auth.Request, env: Auth.Env, verify: Auth.Verifier,
                body: IngestBody) returns (resp: Guarded<IngestResponse>)
    modifies store, req
    ensures resp.Refused? <==> Auth.Decide(req.headers, env, verify).Deny?
    ensures resp.Refused? ==> store.docs == old(store.docs) && resp.status == 403
    ensures resp.Served? ==> (store.docs, resp.response) == Ingestion(old(store.docs), body)
  {
    var decision := Auth.Authenticate(req, env, verify);
    if decision.Deny? {
      return Refused(decision.status, decision.message);
    }
    var logs := if body.logs.Some? then body.logs.value else [];
    var deviceId := OrElse(body.device, "");
    var location := OrElse(body.location, "");
    if |logs| == 0 {
      return Served(NoLogsProvided);
    }
    var ops := BuildOps(logs, deviceId, location);
    if |ops| > 0 {
      var (stored, inserted) := ApplyOps(store.docs, ops);
      store.docs := stored;
      resp := Served(Saved(inserted));
    } else {
      resp := Served(NoNewLogs);
    }
  }

  // =====================================================================
  // GET /: filtering, sorting and paging

  const DayMs: int := 86_400_000

  /** `toDate.setHours(23, 59, 59, 999)` on a server whose local time runs
      `offset` milliseconds ahead of UTC: the last millisecond of the local
      day that holds `t`. */
  function EndOfDay(t: int, offset: int): (r: int)
    ensures t <= r < t + DayMs
    ensures (r + offset) / DayMs == (t + offset) / DayMs
    ensures (r + offset) % DayMs == DayMs - 1
  {
    var local := t + offset;
    local - local % DayMs + DayMs - 1 - offset
  }

  /** Extending to the end of the day twice is extending once. */
  lemma EndOfDayIdempotent(t: int, offset: int)
    ensures EndOfDay(EndOfDay(t, offset), offset) == EndOfDay(t, offset)
  {
    var r := EndOfDay(t, offset);
    var local := r + offset;
    assert local % DayMs == DayMs - 1;
    assert local - local % DayMs + DayMs - 1 - offset == r;
  }

  /** The query string of `GET /`. `from` and `to` are present when given
      and not ""; they hold the parsed times in milliseconds. */
  datatype ListParams = ListParams(
    from: Option<int>,
    to: Option<int>,
    callType: Option<string>,
    callTypes: Option<string>,
    deviceId: Option<string>,
    location: Option<string>,
    clientNumber: Option<string>,
    page: Option<int>,
    limit: Option<int>)

  /** `callTypes.split(",").map((t) => t.trim().toUpperCase())`. */
  function RequestedTypes(callTypes: string): (types: seq<string>)
    ensures |types| == |Split(callTypes, ',')|
  {
    var parts := Split(callTypes, ',');
    seq(|parts|, i requires 0 <= i < |parts| => Upper(Trim(parts[i])))
  }

  /** A comma-separated list of labels yields those labels, trimmed and
      upper-cased, in order. */
  lemma RequestedTypesOfList(labels: seq<string>)
    requires |labels| >= 1
    requires forall i :: 0 <= i < |labels| ==> ',' !in labels[i]
    ensures RequestedTypes(Join(labels, ',')) == seq(|labels|, i requires 0 <= i < |labels| => Upper(Trim(labels[i])))
  {
    SplitJoin(labels, ',');
  }

  /** `clientNumber.replace(/\D/g, "").slice(-10)`: the last ten digits of
      the filter, in order, or all of them when there are fewer. */
  function NumberPattern(filter: string): (pattern: string)
    ensures AllDigits(pattern) && |pattern| <= 10
    ensures |pattern| == if |Digits(filter)| <= 10 then |Digits(filter)| else 10
    ensures Digits(filter) == Digits(filter)[..|Digits(filter)| - |pattern|] + pattern
  {
    LastN(Digits(filter), 10)
  }

  /** What a request asks for, stated filter by filter: the reference
      meaning of the query string, all filters combined with AND. */
  predicate Selects(p: ListParams, offset: int, e: CallLog) {
    && (p.from.Some? ==> p.from.value <= e.timestamp)
    && (p.to.Some? ==> e.timestamp <= EndOfDay(p.to.value, offset))
    && (if Truthy(p.callTypes) then e.callType in RequestedTypes(p.callTypes.value)
        else Truthy(p.callType) ==> e.callType == Upper(p.callType.value))
    && (Truthy(p.deviceId) ==> e.deviceId == p.deviceId.value)
    && (Truthy(p.location) ==> e.location == p.location.value)
    && (Truthy(p.clientNumber) ==> Contains(e.clientNumber, NumberPattern(p.clientNumber.value)))
  }

  /** The `callType` condition of a MongoDB query. */
  datatype TypeCondition = AnyType | TypeIs(name: string) | TypeIn(names: seq<string>)

  /** The MongoDB query object the route builds. */
  datatype Query = Query(
    gte: Option<int>,
    lte: Option<int>,
    callType: TypeCondition,
    deviceId: Option<string>,
    location: Option<string>,
    numberRegex: Option<string>)

  /** How MongoDB evaluates the query on one document; the regular
      expression is made of digits only, so it matches by substring. */
  predicate Matches(q: Query, e: CallLog) {
    && (q.gte.Some? ==> e.timestamp >= q.gte.value)
    && (q.lte.Some? ==> e.timestamp <= q.lte.value)
    && (match q.callType
        case AnyType => true
        case TypeIs(name) => e.callType == name
        case TypeIn(names) => e.callType in names)
    && (q.deviceId.Some? ==> e.deviceId == q.deviceId.value)
    && (q.location.Some? ==> e.location == q.location.value)
    && (q.numberRegex.Some? ==> Contains(e.clientNumber, q.numberRegex.value))
  }

  /** `find({})`: the query with no conditions matches every call log. */
  lemma EmptyQueryMatchesAll(e: CallLog)
    ensures Matches(Query(None, None, AnyType, None, None, None), e)
  {
  }

  /** The query's fields are the ones the route derives from `p`. */
  predicate Describes(q: Query, p: ListParams, offset: int) {
    && q.gte == p.from
    && q.lte == (if p.to.Some? then Some(EndOfDay(p.to.value, offset)) else None)
    && q.callType == (if Truthy(p.callTypes) then TypeIn(RequestedTypes(p.callTypes.value))
                      else if Truthy(p.callType) then TypeIs(Upper(p.callType.value))
                      else AnyType)
    && q.deviceId == (if Truthy(p.deviceId) then p.deviceId else None)
    && q.location == (if Truthy(p.location) then p.location else None)
    && q.numberRegex == (if Truthy(p.clientNumber) then Some(NumberPattern(p.clientNumber.value)) else None)
  }

  /** Such a query selects exactly what the request asks for. */
  lemma DescribedQuerySelects(q: Query, p: ListParams, offset: int)
    requires Describes(q, p, offset)
    ensures forall e :: Matches(q, e) <==> Selects(p, offset, e)
  {
  }

  /** Builds `query` field by field from the query string; the query selects
      exactly what the request asks for: `callTypes` overrides `callType`, and
      `to` reaches the end of its day. */
  method BuildQuery(p: ListParams, offset: int) returns (q: Query)
    ensures forall e :: Matches(q, e) <==> Selects(p, offset, e)
  {
    q := Query(None, None, AnyType, None, None, None);
    if p.from.Some? || p.to.Some? {
      if p.from.Some? {
        q := q.(gte := p.from);
      }
      if p.to.Some? {
        q := q.(lte := Some(EndOfDay(p.to.value, offset)));
      }
    }
    if Truthy(p.callType) {
      q := q.(callType := TypeIs(Upper(p.callType.value)));
    }
    if Truthy(p.callTypes) {
      q := q.(callType := TypeIn(RequestedTypes(p.callTypes.value)));
    }
    if Truthy(p.deviceId) {
      q := q.(deviceId := p.deviceId);
    }
    if Truthy(p.location) {
      q := q.(location := p.location);
    }
    if Truthy(p.clientNumber) {
      q := q.(numberRegex := Some(NumberPattern(p.clientNumber.value)));
    }
    assert Describes(q, p, offset);
    DescribedQuerySelects(q, p, offset);
  }

  /** A filter ending in a ten-digit number matches every stored number
      holding that number, whatever country code the filter puts in front and whatever the stored number carries around it: "9876543210"
      and "+919876543210" both find "+919876543210". */
  lemma {:induction false} NumberFilterIgnoresCountryCode(prefix: string, number: string, before: string, after: string)
    requires |number| == 10 && AllDigits(number)
    ensures Contains(before + number + after, NumberPattern(prefix + number))
  {
    DigitsAppend(prefix, number);
    DigitsOfDigits(number);
    var d := Digits(prefix) + number;
    assert d[|d| - 10..] == number;
    ContainsInside(before, number, after);
  }

  /** Punctuation and spaces anywhere in a number filter do not change it:
      "+91 98765-43210" filters as "+919876543210" does. */
  lemma {:induction false} NumberFilterIgnoresPunctuation(a: string, c: char, b: string)
    requires !IsDigit(c)
    ensures NumberPattern(a + [c] + b) == NumberPattern(a + b)
  {
    DigitsDropsNonDigit(a, c, b);
    DigitsAppend(a, b);
  }

  /** A number filter without digits matches every call log. */
  lemma {:induction false} DigitlessNumberFilterMatchesAll(p: ListParams, offset: int, e: CallLog)
    requires Truthy(p.clientNumber) && Digits(p.clientNumber.value) == ""
    ensures Selects(p, offset, e) <==> Selects(p.(clientNumber := None), offset, e)
  {
    EmptyPatternAlwaysFound(e.clientNumber);
  }

  /** The subsequence of `docs` that `keep` selects: `find(query)` and
      `countDocuments(query)` before sorting. */
  function Filter(docs: seq<CallLog>, keep: CallLog -> bool): (r: seq<CallLog>)
    ensures |r| <= |docs|
    ensures forall e :: multiset(r)[e] == if keep(e) then multiset(docs)[e] else 0
    decreases |docs|
  {
    if docs == [] then []
    else
      assert docs == [docs[0]] + docs[1..];
      (if keep(docs[0]) then [docs[0]] else []) + Filter(docs[1..], keep)
  }

  /** Filtering by two predicates that agree everywhere gives the same rows. */
  lemma {:induction false} FilterCongruent(docs: seq<CallLog>, f: CallLog -> bool, g: CallLog -> bool)
    requires forall e :: f(e) == g(e)
    ensures Filter(docs, f) == Filter(docs, g)
    decreases |docs|
  {
    if docs != [] {
      FilterCongruent(docs[1..], f, g);
    }
  }

  /** Each row is at least as recent as the next one. */
  predicate SortedNewestFirst(s: seq<CallLog>) {
    forall i :: 0 <= i < |s| - 1 ==> s[i].timestamp >= s[i + 1].timestamp
  }

  /** In a newest-first sequence every row is at least as recent as every
      later row, not only the next one. */
  lemma {:induction false} NewestFirstPairwise(s: seq<CallLog>, i: nat, j: nat)
    requires SortedNewestFirst(s) && i <= j < |s|
    ensures s[i].timestamp >= s[j].timestamp
    decreases j - i
  {
    if i < j {
      NewestFirstPairwise(s, i + 1, j);
    }
  }

  function InsertByTime(e: CallLog, s: seq<CallLog>): (r: seq<CallLog>)
    requires SortedNewestFirst(s)
    ensures SortedNewestFirst(r)
    ensures multiset(r) == multiset(s) + multiset{e}
    ensures |r| == |s| + 1 && (r[0] == e || (s != [] && r[0] == s[0]))
    decreases |s|
  {
    if s == [] || e.timestamp >= s[0].timestamp then [e] + s
    else
      assert s == [s[0]] + s[1..];
      [s[0]] + InsertByTime(e, s[1..])
  }

  /** `.sort({ timestamp: -1 })`: the same rows, newest first. */
  function SortNewestFirst(s: seq<CallLog>): (r: seq<CallLog>)
    ensures SortedNewestFirst(r)
    ensures multiset(r) == multiset(s)
    decreases |s|
  {
    if s == [] then []
    else
      assert s == [s[0]] + s[1..];
      InsertByTime(s[0], SortNewestFirst(s[1..]))
  }

  function Abs(n: int): nat {
    if n < 0 then -n else n
  }

  /** `.skip(skip).limit(limit)` with MongoDB's reading of the limit: 0 means
      no limit, and a negative limit `-n` returns at most `n` documents. */
  function Window(s: seq<CallLog>, skip: nat, limit: int): (w: seq<CallLog>)
    ensures |w| == if skip >= |s| then 0
                   else if limit == 0 || |s| - skip <= Abs(limit) then |s| - skip
                   else Abs(limit)
    ensures forall k :: 0 <= k < |w| ==> w[k] == s[skip + k]
  {
    var rest := if skip <= |s| then s[skip..] else [];
    if limit == 0 || |rest| <= Abs(limit) then rest else rest[..Abs(limit)]
  }

  /** The reply of `GET /` (after the middleware). */
  datatype ListResponse = Listed(total: nat, logs: seq<CallLog>) | ListFailed {
    function Status(): int { if Listed? then 200 else 500 }
  }

  /** Counting, sorting and paging the rows a filter selects. A negative skip
      (page 0 or below with a positive limit) makes MongoDB's `find` fail. */
  function Listing(docs: seq<CallLog>, keep: CallLog -> bool, page: int, limit: int): (r: ListResponse)
    ensures r.ListFailed? <==> (page - 1) * limit < 0
  {
    var skip := (page - 1) * limit;
    var matching := Filter(docs, keep);
    if skip < 0 then ListFailed
    else Listed(|matching|, Window(SortNewestFirst(matching), skip, limit))
  }

  /** Every listed row is a stored row the filter selects. */
  lemma ListingSelectsOnly(docs: seq<CallLog>, keep: CallLog -> bool, page: int, limit: int, e: CallLog)
    requires (page - 1) * limit >= 0
    requires e in Listing(docs, keep, page, limit).logs
    ensures e in docs && keep(e)
  {
    var skip := (page - 1) * limit;
    var matching := Filter(docs, keep);
    var sorted := SortNewestFirst(matching);
    var w := Window(sorted, skip, limit);
    var k :| 0 <= k < |w| && w[k] == e;
    assert sorted[skip + k] in multiset(sorted);
    assert multiset(matching)[e] > 0;
  }

  /** The page is newest first, holds at most |limit| rows (any number when
      the limit is 0), and `total` counts every selected row, wherever the
      page is. */
  lemma ListingSortedAndBounded(docs: seq<CallLog>, keep: CallLog -> bool, page: int, limit: int)
    requires (page - 1) * limit >= 0
    ensures SortedNewestFirst(Listing(docs, keep, page, limit).logs)
    ensures limit != 0 ==> |Listing(docs, keep, page, limit).logs| <= Abs(limit)
    ensures |Listing(docs, keep, page, limit).logs| <= Listing(docs, keep, page, limit).total
    ensures Listing(docs, keep, page, limit).total == |Filter(docs, keep)|
  {
    var skip := (page - 1) * limit;
    var matching := Filter(docs, keep);
    var sorted := SortNewestFirst(matching);
    SortKeepsLength(matching);
    WindowKeepsOrder(sorted, skip, limit);
  }

  /** The page is full: it holds every selected row from the skip onwards, up
      to |limit| of them (all of them when the limit is 0). */
  lemma ListingPageLength(docs: seq<CallLog>, keep: CallLog -> bool, page: int, limit: int)
    requires (page - 1) * limit >= 0
    ensures var r := Listing(docs, keep, page, limit);
            var skip := (page - 1) * limit;
            r.Listed? &&
            |r.logs| == if skip >= r.total then 0
                        else if limit == 0 || r.total - skip <= Abs(limit) then r.total - skip
                        else Abs(limit)
  {
    SortKeepsLength(Filter(docs, keep));
  }

  lemma SortKeepsLength(s: seq<CallLog>)
    ensures |SortNewestFirst(s)| == |s|
  {
    assert |multiset(SortNewestFirst(s))| == |multiset(s)|;
  }

  /** A window of a newest-first sequence is newest first. */
  lemma WindowKeepsOrder(s: seq<CallLog>, skip: nat, limit: int)
    requires SortedNewestFirst(s)
    ensures SortedNewestFirst(Window(s, skip, limit))
  {
    var w := Window(s, skip, limit);
    forall i | 0 <= i < |w| - 1 ensures w[i].timestamp >= w[i + 1].timestamp {
      assert w[i] == s[skip + i] && w[i + 1] == s[skip + i + 1];
    }
  }

  /** `total` does not depend on `page` or `limit`. */
  lemma TotalIgnoresPaging(docs: seq<CallLog>, keep: CallLog -> bool, page: int, limit: int, page': int, limit': int)
    requires (page - 1) * limit >= 0 && (page' - 1) * limit' >= 0
    ensures Listing(docs, keep, page, limit).total == Listing(docs, keep, page', limit').total
  {
  }

  /** With a positive limit, page `p` holds the rows at positions
      `(p-1)*limit` up to `p*limit` of the newest-first selection. */
  lemma PageIsSliceOfSorted(docs: seq<CallLog>, keep: CallLog -> bool, page: int, limit: int, k: nat)
    requires page >= 1 && limit > 0
    requires Listing(docs, keep, page, limit).Listed?
    requires k < |Listing(docs, keep, page, limit).logs|
    ensures k < limit
    ensures Listing(docs, keep, page, limit).logs[k] == SortNewestFirst(Filter(docs, keep))[(page - 1) * limit + k]
  {
    ListingSortedAndBounded(docs, keep, page, limit);
  }

  /** `GET /` with the middleware in front of it: the reply lists the stored
      rows the request selects, counted, newest first and paged, with `page`
      defaulting to 1 and `limit` to 100. */
  method List(store: Db.Collection<CallLog>, req: Auth.Request, env: Auth.Env, verify: Auth.Verifier,
              p: ListParams, offset: int) returns (resp: Guarded<ListResponse>)
    modifies req
    ensures resp.Refused? <==> Auth.Decide(req.headers, env, verify).Deny?
    ensures resp.Refused? ==> resp.status == 403
    ensures resp.Served? ==>
              resp.response == Listing(store.docs, e => Selects(p, offset, e),
                                       if p.page.Some? then p.page.value else 1,
                                       if p.limit.Some? then p.limit.value else 100)
  {
    var decision := Auth.Authenticate(req, env, verify);
    if decision.Deny? {
      return Refused(decision.status, decision.message);
    }
    var page := if p.page.Some? then p.page.value else 1;
    var limit := if p.limit.Some? then p.limit.value else 100;
    var query := BuildQuery(p, offset);
    FilterCongruent(store.docs, e => Matches(query, e), e => Selects(p, offset, e));
    resp := Served(Listing(store.docs, e => Matches(query, e), page, limit));
  }

  // =====================================================================
  // PUT /:id: status update

  /** The `status` field of the body: absent, a string, or another JSON value. */
  datatype StatusValue = Missing | Text(text: string) | NotText

  /** The reply of `PUT /:id` (after the middleware). */
  datatype UpdateResponse = InvalidStatus | LogNotFound | UpdateFailed | StatusUpdated(entry: CallLog) {
    function Status(): int {
      match this
      case InvalidStatus => 400
      case LogNotFound => 404
      case UpdateFailed => 500
      case StatusUpdated(_) => 200
    }
  }

  /** The route's effect on the stored call logs and its reply: a status that
      is missing, "" or not a string is refused before the store is read; an
      id that is not an ObjectId fails the cast; an unknown id is 404. */
  function StatusUpdate(docs: seq<CallLog>, id: Db.IdParam, status: StatusValue): (r: (seq<CallLog>, UpdateResponse))
    ensures !r.1.StatusUpdated? ==> r.0 == docs
    ensures r.1.StatusUpdated? <==> status.Text? && status.text != "" && id.ObjectId? && id.index < |docs|
    ensures r.1.InvalidStatus? <==> !status.Text? || status.text == ""
    ensures r.1.UpdateFailed? <==> status.Text? && status.text != "" && id.Malformed?
    ensures r.1.LogNotFound? <==> status.Text? && status.text != "" && id.ObjectId? && id.index >= |docs|
  {
    if !status.Text? || status.text == "" then (docs, InvalidStatus)
    else match id
      case Malformed => (docs, UpdateFailed)
      case ObjectId(i) =>
        if i >= |docs| then (docs, LogNotFound)
        else
          var updated := docs[i].(status := status.text);
          (docs[i := updated], StatusUpdated(updated))
  }

  /** A successful update changes the `status` of the one addressed row and
      nothing else, and returns the updated row. */
  lemma StatusUpdateTouchesOnlyStatus(docs: seq<CallLog>, i: nat, text: string)
    requires i < |docs| && text != ""
    ensures var (after, resp) := StatusUpdate(docs, Db.ObjectId(i), Text(text));
            && |after| == |docs|
            && after[i].status == text
            && after[i] == docs[i].(status := text)
            && resp == StatusUpdated(after[i])
            && forall j :: 0 <= j < |docs| && j != i ==> after[j] == docs[j]
  {
  }

  /** Setting the same status twice is setting it once. */
  lemma StatusUpdateIdempotent(docs: seq<CallLog>, id: Db.IdParam, status: StatusValue)
    ensures StatusUpdate(StatusUpdate(docs, id, status).0, id, status).0 == StatusUpdate(docs, id, status).0
  {
  }

  /** A status update keeps the deduplication keys, so it keeps them unique. */
  lemma StatusUpdateKeepsKeys(docs: seq<CallLog>, id: Db.IdParam, status: StatusValue)
    requires KeysUnique(docs)
    ensures KeysUnique(StatusUpdate(docs, id, status).0)
  {
    var after := StatusUpdate(docs, id, status).0;
    assert forall j :: 0 <= j < |docs| ==> KeyOf(after[j]) == KeyOf(docs[j]);
  }

  /** `PUT /:id` with the middleware in front of it. */
  method UpdateStatus(store: Db.Collection<CallLog>, req: Auth.Request, env: Auth.Env, verify: Auth.Verifier,
                      id: Db.IdParam, status: StatusValue) returns (resp: Guarded<UpdateResponse>)
    modifies store, req
    ensures resp.Refused? <==> Auth.Decide(req.headers, env, verify).Deny?
    ensures resp.Refused? ==> store.docs == old(store.docs) && resp.status == 403
    ensures resp.Served? ==> (store.docs, resp.response) == StatusUpdate(old(store.docs), id, status)
  {
    var decision := Auth.Authenticate(req, env, verify);
    if decision.Deny? {
      return Refused(decision.status, decision.message);
    }
    if !status.Text? || status.text == "" {
      return Served(InvalidStatus);
    }
    match id
    case Malformed =>
      resp := Served(UpdateFailed);
    case ObjectId(i) =>
      if i >= |store.docs| {
        resp := Served(LogNotFound);
      } else {
        var updated := store.docs[i].(status := status.text);
        store.Put(i, updated);
        resp := Served(StatusUpdated(updated));
      }
  }
}
