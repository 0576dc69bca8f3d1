/**
 * The published snapshot document and the check history, as JSON values.
 * Numbers are IEEE doubles: integers above 2^53 are rounded when they are written.
 */
module SnapshotJson {
  import opened Wrappers
  import opened Domain
  import opened Numerals

  datatype Json =
    | Undefined
    | Bool(b: bool)
    | Number(n: real)
    | Text(s: string)
    | Array(items: seq<Json>)
    | Object(fields: map<string, Json>)
  {
    /** QJsonObject::value: Undefined for a missing key. */
    function Value(key: string): Json {
      if Object? && key in fields then fields[key] else Undefined
    }
  }

  const SCHEMA_VERSION := 1
  const MAX_EXACT := 0x20_0000_0000_0000 // 2^53

  // Doubles

  /** The distance between neighbouring doubles at magnitude `m`. */
  function Spacing(m: nat): (q: nat)
    ensures q >= 1
  {
    if m < MAX_EXACT then 1 else 2 * Spacing(m / 2)
  }

  /** Round to nearest, ties to even. */
  function Nearest(m: nat): nat {
    var q := Spacing(m);
    var steps := m / q;
    var rest := m % q;
    if 2 * rest < q || (2 * rest == q && steps % 2 == 0) then steps * q else (steps + 1) * q
  }

  /** static_cast<double> of a 64-bit integer. */
  function ToDouble(n: int): real {
    if n >= 0 then Nearest(n) as real else -(Nearest(-n) as real)
  }

  lemma {:induction false} SpacingBound(m: nat)
    requires m >= MAX_EXACT / 2
    ensures Spacing(m) * (MAX_EXACT / 2) <= m
    decreases m
  {
    if m >= MAX_EXACT {
      SpacingBound(m / 2);
    }
  }

  /** Exactly the integers up to 2^53 survive, and 2^53 + 1 is the one larger value that lands back on the limit. */
  lemma NearestExact(m: nat)
    ensures m <= MAX_EXACT ==> Nearest(m) == m
    ensures m == MAX_EXACT + 1 ==> Nearest(m) == MAX_EXACT
    ensures m > MAX_EXACT + 1 ==> Nearest(m) > MAX_EXACT
  {
    if m < MAX_EXACT {
      assert Spacing(m) == 1;
    } else if m < 2 * MAX_EXACT {
      assert Spacing(m / 2) == 1;
      assert Spacing(m) == 2;
    } else {
      var q := Spacing(m);
      SpacingBound(m);
      var steps := m / q;
      assert steps * q + m % q == m;
      assert q * (MAX_EXACT / 2) <= m;
      LowerMultiple(m, q);
    }
  }

  lemma LowerMultiple(m: nat, q: nat)
    requires q >= 1
    requires q * (MAX_EXACT / 2) <= m
    requires m >= 2 * MAX_EXACT
    ensures m / q * q > MAX_EXACT
  {
    var steps := m / q;
    assert steps * q > m - q;
    assert q * 2 <= q * (MAX_EXACT / 2);
    assert 2 * q <= m;
  }

  // The snapshot document

  function RowOf(update: PendingUpdate): Json {
    Object(map[
      "name" := Text(update.name),
      "installedVersion" := Text(update.installedVersion),
      "availableVersion" := Text(update.availableVersion),
      "repository" := Text(update.repository),
      "downloadSizeBytes" := Number(ToDouble(update.downloadSizeBytes)),
      "installedSizeDeltaBytes" := Number(ToDouble(update.installedSizeDeltaBytes)),
      "ignored" := Bool(update.ignored)])
  }

  function RowsOf(updates: seq<PendingUpdate>): (rows: seq<Json>)
    ensures |rows| == |updates|
  {
    if updates == [] then [] else RowsOf(updates[..|updates| - 1]) + [RowOf(updates[|updates| - 1])]
  }

  function DocumentOf(snapshot: CheckedSnapshot): Json {
    Object(map[
      "schemaVersion" := Number(SCHEMA_VERSION as real),
      "fetchedAt" := Number(ToDouble(ToSeconds(snapshot.fetchedAt))),
      "databasesFound" := Bool(snapshot.snapshot.databasesFound),
      "dataAsOf" := Number(ToDouble(ToSeconds(snapshot.snapshot.dataAsOf))),
      "count" := Number(CountShown(snapshot.snapshot.updates) as real),
      "updates" := Array(RowsOf(snapshot.snapshot.updates))])
  }

  method Serialize(snapshot: CheckedSnapshot) returns (document: Json)
    ensures document == DocumentOf(snapshot)
  {
    var updates := snapshot.snapshot.updates;
    var rows: seq<Json> := [];
    var count := 0;
    for i := 0 to |updates|
      invariant rows == RowsOf(updates[..i])
      invariant count == CountShown(updates[..i])
    {
      assert updates[..i + 1][..i] == updates[..i];
      rows := rows + [RowOf(updates[i])];
      if !updates[i].ignored {
        count := count + 1;
      }
    }
    assert updates[..|updates|] == updates;
    document := Object(map[
      "schemaVersion" := Number(SCHEMA_VERSION as real),
      "fetchedAt" := Number(ToDouble(ToSeconds(snapshot.fetchedAt))),
      "databasesFound" := Bool(snapshot.snapshot.databasesFound),
      "dataAsOf" := Number(ToDouble(ToSeconds(snapshot.snapshot.dataAsOf))),
      "count" := Number(count as real),
      "updates" := Array(rows)]);
  }

  /** An integer in [minimum, 2^53], exactly. */
  function Integral(value: Json, minimum: int): Option<int> {
    if value.Number? && value.n == value.n.Floor as real && minimum as real <= value.n <= MAX_EXACT as real
    then Some(value.n.Floor)
    else None
  }

  function TextAt(row: Json, key: string): Option<string> {
    if row.Value(key).Text? then Some(row.Value(key).s) else None
  }

  function UpdateOf(row: Json): Option<PendingUpdate> {
    var name := TextAt(row, "name");
    var installed := TextAt(row, "installedVersion");
    var available := TextAt(row, "availableVersion");
    var repository := TextAt(row, "repository");
    var download := Integral(row.Value("downloadSizeBytes"), 0);
    var delta := Integral(row.Value("installedSizeDeltaBytes"), -MAX_EXACT);
    if row.Object? && name.Some? && installed.Some? && available.Some? && repository.Some? && download.Some? &&
       delta.Some? && row.Value("ignored").Bool?
    then Some(PendingUpdate(name.value, installed.value, available.value, repository.value, download.value,
                            delta.value, row.Value("ignored").b))
    else None
  }

  function UpdatesOf(rows: seq<Json>): (updates: Option<seq<PendingUpdate>>)
    ensures updates.Some? ==> |updates.value| == |rows|
  {
    if rows == [] then Some([])
    else
      var before := UpdatesOf(rows[..|rows| - 1]);
      var last := UpdateOf(rows[|rows| - 1]);
      if before.Some? && last.Some? then Some(before.value + [last.value]) else None
  }

  const MAX_SECONDS := 9_223_372_036 // system_clock::duration::max() in whole seconds

  datatype Header = Header(fetchedAt: Time, databasesFound: bool, dataAsOf: Time, count: int)

  /** The document's fields apart from its rows. */
  function HeaderOf(document: Json): Option<Header> {
    var fetchedAt := Integral(document.Value("fetchedAt"), 0);
    var dataAsOf := Integral(document.Value("dataAsOf"), 0);
    var count := Integral(document.Value("count"), 0);
    if document.Object? && Integral(document.Value("schemaVersion"), 0) == Some(SCHEMA_VERSION) && fetchedAt.Some? &&
       dataAsOf.Some? && count.Some? && document.Value("databasesFound").Bool? && document.Value("updates").Array? &&
       fetchedAt.value <= MAX_SECONDS && dataAsOf.value <= MAX_SECONDS
    then Some(Header(fetchedAt.value * NANOS_PER_SECOND, document.Value("databasesFound").b,
                     dataAsOf.value * NANOS_PER_SECOND, count.value))
    else None
  }

  function SnapshotFrom(header: Header, updates: seq<PendingUpdate>): CheckedSnapshot {
    CheckedSnapshot(UpdateSnapshot(updates, header.databasesFound, header.dataAsOf, false, false, ""),
                    header.fetchedAt)
  }

  function RowsIn(document: Json): seq<Json> {
    if document.Value("updates").Array? then document.Value("updates").items else []
  }

  function SnapshotOf(document: Json): Option<CheckedSnapshot> {
    var header := HeaderOf(document);
    var updates := UpdatesOf(RowsIn(document));
    if header.Some? && updates.Some? && CountShown(updates.value) == header.value.count
    then Some(SnapshotFrom(header.value, updates.value))
    else None
  }

  /** Collects the rows and counts those that are not ignored. */
  method ParseRows(rows: seq<Json>) returns (updates: Option<seq<PendingUpdate>>, nonIgnored: nat)
    ensures updates == UpdatesOf(rows)
    ensures updates.Some? ==> nonIgnored == CountShown(updates.value)
  {
    var collected: seq<PendingUpdate> := [];
    nonIgnored := 0;
    for i := 0 to |rows|
      invariant UpdatesOf(rows[..i]) == Some(collected)
      invariant nonIgnored == CountShown(collected)
    {
      var update := UpdateOf(rows[i]);
      OneMoreRow(rows, i);
      if update.None? {
        UnreadableRow(rows, i + 1);
        return None, nonIgnored;
      }
      OneMoreShown(collected, update.value);
      if !update.value.ignored {
        nonIgnored := nonIgnored + 1;
      }
      collected := collected + [update.value];
    }
    assert rows[..|rows|] == rows;
    updates := Some(collected);
  }

  lemma OneMoreRow(rows: seq<Json>, i: nat)
    requires i < |rows|
    ensures UpdatesOf(rows[..i + 1]) ==
            if UpdatesOf(rows[..i]).Some? && UpdateOf(rows[i]).Some?
            then Some(UpdatesOf(rows[..i]).value + [UpdateOf(rows[i]).value]) else None
  {
    assert rows[..i + 1][..i] == rows[..i];
  }

  lemma OneMoreShown(updates: seq<PendingUpdate>, update: PendingUpdate)
    ensures CountShown(updates + [update]) == CountShown(updates) + (if update.ignored then 0 else 1)
  {
    assert (updates + [update])[..|updates|] == updates;
  }

  /** Reads a document; None for anything that is not a complete, consistent version-1 document. */
  method Parse(document: Json) returns (result: Option<CheckedSnapshot>)
    ensures result == SnapshotOf(document)
  {
    var header := HeaderOf(document);
    if header.None? {
      return None;
    }
    var updates, nonIgnored := ParseRows(RowsIn(document));
    if updates.None? || nonIgnored != header.value.count {
      return None;
    }
    return Some(SnapshotFrom(header.value, updates.value));
  }

  /** One unreadable row makes the whole document unreadable. */
  lemma {:induction false} UnreadableRow(rows: seq<Json>, i: nat)
    requires i <= |rows|
    requires UpdatesOf(rows[..i]).None?
    ensures UpdatesOf(rows).None?
    decreases |rows|
  {
    if i == |rows| {
      assert rows[..i] == rows;
    } else {
      assert rows[..|rows| - 1][..i] == rows[..i];
      UnreadableRow(rows[..|rows| - 1], i);
    }
  }

  // Round trip

  /** What the published document keeps of a snapshot. */
  function Persisted(snapshot: CheckedSnapshot): CheckedSnapshot {
    CheckedSnapshot(
      UpdateSnapshot(snapshot.snapshot.updates, snapshot.snapshot.databasesFound,
                     Truncated(snapshot.snapshot.dataAsOf), false, false, ""),
      Truncated(snapshot.fetchedAt))
  }

  predicate StorableUpdate(update: PendingUpdate) {
    && update.downloadSizeBytes <= MAX_EXACT
    && -MAX_EXACT <= update.installedSizeDeltaBytes <= MAX_EXACT
  }

  predicate Storable(snapshot: CheckedSnapshot) {
    && ToSeconds(snapshot.fetchedAt) >= 0
    && ToSeconds(snapshot.snapshot.dataAsOf) >= 0
    && forall update <- snapshot.snapshot.updates :: StorableUpdate(update)
  }

  /** A stored number within its bounds is read as itself, one past either end of the exact range as that end. */
  lemma IntegralOfDouble(n: int, minimum: int)
    requires -MAX_EXACT <= minimum <= 0
    ensures Integral(Number(ToDouble(n)), minimum) ==
            if minimum <= n <= MAX_EXACT then Some(n)
            else if n == MAX_EXACT + 1 then Some(MAX_EXACT)
            else if n == -MAX_EXACT - 1 && minimum == -MAX_EXACT then Some(-MAX_EXACT)
            else None
  {
    if n >= 0 {
      NearestExact(n);
    } else {
      NearestExact(-n);
      if -n <= MAX_EXACT {
        assert ToDouble(n) == n as real;
      }
    }
  }

  lemma UpdateRoundTrip(update: PendingUpdate)
    ensures UpdateOf(RowOf(update)) == Some(update) <==> StorableUpdate(update)
  {
    IntegralOfDouble(update.downloadSizeBytes, 0);
    IntegralOfDouble(update.installedSizeDeltaBytes, -MAX_EXACT);
  }

  lemma {:induction false} UpdatesRoundTrip(updates: seq<PendingUpdate>)
    ensures UpdatesOf(RowsOf(updates)) == Some(updates) <==> forall update <- updates :: StorableUpdate(update)
  {
    if updates != [] {
      var before, last := updates[..|updates| - 1], updates[|updates| - 1];
      assert updates == before + [last];
      UpdatesRoundTrip(before);
      UpdateRoundTrip(last);
      var rows := RowsOf(updates);
      assert rows[..|rows| - 1] == RowsOf(before);
      assert forall update <- updates :: update in before || update == last;
      var readBefore, readLast := UpdatesOf(RowsOf(before)), UpdateOf(RowOf(last));
      if readBefore.Some? && readLast.Some? {
        assert UpdatesOf(rows) == Some(readBefore.value + [readLast.value]);
        assert readBefore.value + [readLast.value] == updates <==> readBefore.value == before && readLast.value == last
        by {
          if readBefore.value + [readLast.value] == updates {
            assert (readBefore.value + [readLast.value])[..|before|] == readBefore.value;
          }
        }
      }
    }
  }

  /**
   * Reading back what was written gives the snapshot with its times cut to seconds
   * exactly when its times are not negative and its sizes are at most 2^53.
   */
  lemma RoundTrip(snapshot: CheckedSnapshot)
    requires |snapshot.snapshot.updates| <= 0x7FFF_FFFF // the row counter is an int
    ensures SnapshotOf(DocumentOf(snapshot)) == Some(Persisted(snapshot)) <==> Storable(snapshot)
  {
    UpdatesRoundTrip(snapshot.snapshot.updates);
    HeaderRoundTrip(snapshot);
    assert RowsIn(DocumentOf(snapshot)) == RowsOf(snapshot.snapshot.updates);
  }

  function HeaderFor(snapshot: CheckedSnapshot): Header {
    Header(Truncated(snapshot.fetchedAt), snapshot.snapshot.databasesFound, Truncated(snapshot.snapshot.dataAsOf),
           CountShown(snapshot.snapshot.updates))
  }

  lemma HeaderRoundTrip(snapshot: CheckedSnapshot)
    requires |snapshot.snapshot.updates| <= 0x7FFF_FFFF
    ensures HeaderOf(DocumentOf(snapshot)) == Some(HeaderFor(snapshot)) <==>
            ToSeconds(snapshot.fetchedAt) >= 0 && ToSeconds(snapshot.snapshot.dataAsOf) >= 0
  {
    HeaderFieldsRoundTrip(DocumentOf(snapshot), snapshot);
  }

  lemma HeaderFieldsRoundTrip(document: Json, snapshot: CheckedSnapshot)
    requires |snapshot.snapshot.updates| <= 0x7FFF_FFFF
    requires document.Object? && document.Value("schemaVersion") == Number(1.0) && document.Value("updates").Array?
    requires document.Value("fetchedAt") == Number(ToDouble(ToSeconds(snapshot.fetchedAt)))
    requires document.Value("dataAsOf") == Number(ToDouble(ToSeconds(snapshot.snapshot.dataAsOf)))
    requires document.Value("count") == Number(CountShown(snapshot.snapshot.updates) as real)
    requires document.Value("databasesFound") == Bool(snapshot.snapshot.databasesFound)
    ensures HeaderOf(document) == Some(HeaderFor(snapshot)) <==>
            ToSeconds(snapshot.fetchedAt) >= 0 && ToSeconds(snapshot.snapshot.dataAsOf) >= 0
  {
    var fetched, asOf := ToSeconds(snapshot.fetchedAt), ToSeconds(snapshot.snapshot.dataAsOf);
    IntegralOfDouble(fetched, 0);
    IntegralOfDouble(asOf, 0);
  }

  /** The first size past the limit is accepted on reading, but as a different size. */
  lemma FirstSizeLost(update: PendingUpdate)
    requires update.downloadSizeBytes == MAX_EXACT + 1 && update.installedSizeDeltaBytes == 0
    ensures UpdateOf(RowOf(update)) == Some(update.(downloadSizeBytes := MAX_EXACT))
  {
    NearestExact(update.downloadSizeBytes);
  }

  /** An accepted document holds as many rows that are not ignored as its count says, and reads back as itself. */
  lemma ReadingIsStable(document: Json)
    requires SnapshotOf(document).Some?
    requires |RowsIn(document)| <= 0x7FFF_FFFF
    ensures document.Value("count") == Number(CountShown(SnapshotOf(document).value.snapshot.updates) as real)
    ensures SnapshotOf(DocumentOf(SnapshotOf(document).value)) == SnapshotOf(document)
  {
    HeaderIsStorable(document);
    ReadIsStorable(document);
    StorableReadsBack(SnapshotOf(document).value);
  }

  /** What is read is storable, and nothing of it is lost when it is saved. */
  lemma ReadIsStorable(document: Json)
    requires SnapshotOf(document).Some?
    ensures Storable(SnapshotOf(document).value)
    ensures Persisted(SnapshotOf(document).value) == SnapshotOf(document).value
  {
    HeaderIsStorable(document);
    ReadUpdatesStorable(RowsIn(document));
  }

  lemma StorableReadsBack(snapshot: CheckedSnapshot)
    requires |snapshot.snapshot.updates| <= 0x7FFF_FFFF && Storable(snapshot) && Persisted(snapshot) == snapshot
    ensures SnapshotOf(DocumentOf(snapshot)) == Some(snapshot)
  {
    RoundTrip(snapshot);
  }

  lemma HeaderIsStorable(document: Json)
    requires HeaderOf(document).Some?
    ensures var header := HeaderOf(document).value;
            && document.Value("count") == Number(header.count as real)
            && ToSeconds(header.fetchedAt) >= 0 && Truncated(header.fetchedAt) == header.fetchedAt
            && ToSeconds(header.dataAsOf) >= 0 && Truncated(header.dataAsOf) == header.dataAsOf
  {
  }

  lemma {:induction false} ReadUpdatesStorable(rows: seq<Json>)
    requires UpdatesOf(rows).Some?
    ensures forall update <- UpdatesOf(rows).value :: StorableUpdate(update)
  {
    if rows != [] {
      ReadUpdatesStorable(rows[..|rows| - 1]);
    }
  }

  // Check history

  datatype ErrorCode = NetworkUnavailable | RepositoryUnreachable | Busy | Unknown

  function ErrorName(code: ErrorCode): string {
    match code
    case NetworkUnavailable => "network-unavailable"
    case RepositoryUnreachable => "repository-unreachable"
    case Busy => "busy"
    case Unknown => "unknown"
  }

  datatype CheckHistory = CheckHistory(completed: Time, succeeded: bool, error: Option<ErrorCode>)

  function HistoryDocument(history: CheckHistory): Json {
    Object(map[
      "version" := Number(1.0),
      "completed" := Number(ToDouble(ToSeconds(history.completed))),
      "succeeded" := Bool(history.succeeded),
      "error" := Text(if history.error.Some? then ErrorName(history.error.value) else "")])
  }

  const ALL_CODES: seq<ErrorCode> := [NetworkUnavailable, RepositoryUnreachable, Busy, Unknown]

  /** A failed check is read only with a known error; the error of a successful one is dropped. */
  method LoadHistory(document: Json) returns (history: Option<CheckHistory>)
    ensures history == HistoryOf(document)
  {
    var completed := Integral(document.Value("completed"), 0);
    if document.Value("version") != Number(1.0) || completed.None? || !document.Value("succeeded").Bool? ||
       completed.value > MAX_SECONDS {
      return None;
    }
    var error: Option<ErrorCode> := None;
    if !document.Value("succeeded").b {
      for i := 0 to |ALL_CODES|
        invariant error.Some? ==> document.Value("error") == Text(ErrorName(error.value))
        invariant error.None? ==> forall j | 0 <= j < i :: document.Value("error") != Text(ErrorName(ALL_CODES[j]))
      {
        if document.Value("error") == Text(ErrorName(ALL_CODES[i])) {
          error := Some(ALL_CODES[i]);
        }
      }
      if error.None? {
        assert forall j | 0 <= j < |ALL_CODES| :: document.Value("error") != Text(ErrorName(ALL_CODES[j]));
        assert ALL_CODES[0] == NetworkUnavailable && ALL_CODES[1] == RepositoryUnreachable;
        assert ALL_CODES[2] == Busy && ALL_CODES[3] == Unknown;
        return None;
      }
      ErrorNamesDiffer();
    }
    return Some(CheckHistory(completed.value * NANOS_PER_SECOND, document.Value("succeeded").b, error));
  }

  function HistoryOf(document: Json): Option<CheckHistory> {
    var completed := Integral(document.Value("completed"), 0);
    if document.Value("version") != Number(1.0) || completed.None? || !document.Value("succeeded").Bool? ||
       completed.value > MAX_SECONDS
    then None
    else
      var at := completed.value * NANOS_PER_SECOND;
      if document.Value("succeeded").b then Some(CheckHistory(at, true, None))
      else if document.Value("error") == Text(ErrorName(NetworkUnavailable))
      then Some(CheckHistory(at, false, Some(NetworkUnavailable)))
      else if document.Value("error") == Text(ErrorName(RepositoryUnreachable))
      then Some(CheckHistory(at, false, Some(RepositoryUnreachable)))
      else if document.Value("error") == Text(ErrorName(Busy)) then Some(CheckHistory(at, false, Some(Busy)))
      else if document.Value("error") == Text(ErrorName(Unknown)) then Some(CheckHistory(at, false, Some(Unknown)))
      else None
  }

  lemma ErrorNamesDiffer()
    ensures forall a: ErrorCode, b: ErrorCode :: ErrorName(a) == ErrorName(b) ==> a == b
    ensures forall a: ErrorCode :: ErrorName(a) != ""
  {
    forall a: ErrorCode, b: ErrorCode | ErrorName(a) == ErrorName(b)
      ensures a == b
    {
      assert |ErrorName(NetworkUnavailable)| == 19 && |ErrorName(RepositoryUnreachable)| == 22;
      assert |ErrorName(Busy)| == 4 && |ErrorName(Unknown)| == 7;
    }
  }

  /** A check result survives a restart, cut to seconds, exactly when it has an error if and only if it failed. */
  lemma HistoryRoundTrip(history: CheckHistory)
    ensures HistoryOf(HistoryDocument(history)) == Some(history.(completed := Truncated(history.completed))) <==>
            ToSeconds(history.completed) >= 0 && (history.error.None? <==> history.succeeded)
  {
    ErrorNamesDiffer();
    IntegralOfDouble(ToSeconds(history.completed), 0);
    var document := HistoryDocument(history);
    assert document.Value("completed") == Number(ToDouble(ToSeconds(history.completed)));
  }

  /** Whatever the file holds, a loaded result has an error exactly when it is a failure. */
  lemma LoadedHistoryIsConsistent(document: Json)
    requires HistoryOf(document).Some?
    ensures HistoryOf(document).value.error.None? <==> HistoryOf(document).value.succeeded
    ensures ToSeconds(HistoryOf(document).value.completed) >= 0
  {
  }

  // Repository timestamps: whole seconds as a number, nanoseconds as decimal text

  /** QString::toLongLong for digits with an optional minus; other spellings fail the canonical comparison anyway. */
  function ToLongLong(text: string): Option<Time> {
    if text != [] && AllDigits(text) then
      (if DigitsValue(text) < 0x8000_0000_0000_0000 then Some(DigitsValue(text)) else None)
    else if |text| > 1 && text[0] == '-' && AllDigits(text[1..]) then
      (if DigitsValue(text[1..]) <= 0x8000_0000_0000_0000 then Some(-(DigitsValue(text[1..]) as int)) else None)
    else None
  }

  function RepositoryTimestamp(seconds: Json, nanoseconds: Json): Option<Time> {
    var whole := Integral(seconds, 0);
    var time := if nanoseconds.Text? then ToLongLong(nanoseconds.s) else None;
    if whole.Some? && time.Some? && time.value >= 0 && Decimal(time.value) == nanoseconds.s &&
       ToSeconds(time.value) == whole.value
    then time
    else None
  }

  /** What reading gives for a written timestamp. */
  function TimestampRead(time: Time): Option<Time> {
    if time >= 0 then Some(time) else None
  }

  /** A repository timestamp survives to the nanosecond exactly when it is not negative; otherwise it is unreadable. */
  lemma TimestampRoundTrip(time: Time)
    ensures RepositoryTimestamp(Number(ToDouble(ToSeconds(time))), Text(Decimal(time))) == TimestampRead(time)
  {
    if time >= 0 {
      DigitsValueOfDigits(time);
      IntegralOfDouble(ToSeconds(time), 0);
    } else {
      assert Decimal(time)[0] == '-';
      forall other: Time | other >= 0
        ensures Decimal(other) != Decimal(time)
      {
        assert '0' <= Digits(other)[0] <= '9';
      }
    }
  }

  /** Only the canonical spelling of a time that agrees with its seconds is accepted. */
  lemma TimestampIsCanonical(seconds: Json, nanoseconds: Json)
    requires RepositoryTimestamp(seconds, nanoseconds).Some?
    ensures var time := RepositoryTimestamp(seconds, nanoseconds).value;
            time >= 0 && nanoseconds == Text(Decimal(time)) && seconds == Number(ToSeconds(time) as real)
  {
  }
}
