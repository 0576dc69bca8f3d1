/** Values shared by the models: options, results and the records the components exchange. */
module Wrappers {
  datatype Option<+T> = None | Some(value: T)

  datatype Result<+T, +E> = Ok(value: T) | Err(error: E)
}

module Domain {
  import opened Wrappers

  const NANOS_PER_SECOND := 1_000_000_000

  /** A system_clock time point: signed 64-bit nanoseconds since the epoch. */
  type Time = t: int | -0x8000_0000_0000_0000 <= t < 0x8000_0000_0000_0000

  /** duration_cast<seconds>: truncates towards zero. */
  function ToSeconds(time: Time): (seconds: int)
    ensures time >= 0 ==> seconds * NANOS_PER_SECOND <= time < (seconds + 1) * NANOS_PER_SECOND
    ensures time < 0 ==> (seconds - 1) * NANOS_PER_SECOND < time <= seconds * NANOS_PER_SECOND
  {
    var nanos: int := time;
    if nanos >= 0 then nanos / NANOS_PER_SECOND else -(-nanos / NANOS_PER_SECOND)
  }

  function Truncated(time: Time): Time {
    ToSeconds(time) * NANOS_PER_SECOND
  }

  datatype PendingUpdate = PendingUpdate(
    name: string,
    installedVersion: string,
    availableVersion: string,
    repository: string,
    downloadSizeBytes: nat,
    installedSizeDeltaBytes: int,
    ignored: bool)

  /** `database` names the file the repository's packages are read from. */
  datatype RepositoryProvenance<D, P> = RepositoryProvenance(
    name: string,
    identity: string,
    digest: D,
    timestamp: Time,
    database: P,
    checked: bool)

  datatype UpdateSnapshot = UpdateSnapshot(
    updates: seq<PendingUpdate>,
    databasesFound: bool,
    dataAsOf: Time,
    evaluated: bool,
    previouslyLoaded: bool,
    evaluationError: string)

  datatype CheckedSnapshot = CheckedSnapshot(snapshot: UpdateSnapshot, fetchedAt: Time)

  /** Rows not flagged as ignored. */
  function CountShown(updates: seq<PendingUpdate>): (count: nat)
    ensures count <= |updates|
  {
    if updates == [] then 0
    else
      var last := updates[|updates| - 1];
      CountShown(updates[..|updates| - 1]) + (if last.ignored then 0 else 1)
  }
}

/** Decimal digits and their value. */
module Numerals {
  function Digit(d: nat): char
    requires d < 10
  {
    '0' + d as char
  }

  function Digits(n: nat): (text: string)
    ensures text != []
    ensures forall i | 0 <= i < |text| :: '0' <= text[i] <= '9'
  {
    if n < 10 then [Digit(n)] else Digits(n / 10) + [Digit(n % 10)]
  }

  function Decimal(n: int): string {
    if n >= 0 then Digits(n) else "-" + Digits(-n)
  }

  predicate AllDigits(text: string) {
    forall i | 0 <= i < |text| :: '0' <= text[i] <= '9'
  }

  /** The value of a run of decimal digits. */
  function DigitsValue(text: string): nat
    requires AllDigits(text)
  {
    if text == [] then 0
    else DigitsValue(text[..|text| - 1]) * 10 + (text[|text| - 1] - '0') as nat
  }

  lemma {:induction false} DigitsValueOfDigits(n: nat)
    ensures DigitsValue(Digits(n)) == n
  {
    if n >= 10 {
      DigitsValueOfDigits(n / 10);
      assert Digits(n)[..|Digits(n)| - 1] == Digits(n / 10);
    }
  }
}

/** Byte strings, one char for a byte: the C locale's spaces and std::string's order. */
module ByteStrings {
  predicate IsSpace(c: char) {
    c == ' ' || '\t' <= c <= '\r'
  }

  /** Byte by byte, and a proper prefix first. */
  predicate BytesBefore(left: string, right: string) {
    if right == "" then false
    else if left == "" then true
    else if left[0] != right[0] then left[0] < right[0]
    else BytesBefore(left[1..], right[1..])
  }

  lemma {:induction false} BytesAreOrdered(a: string, b: string, c: string)
    ensures !BytesBefore(a, a)
    ensures a != b ==> (BytesBefore(a, b) <==> !BytesBefore(b, a))
    ensures BytesBefore(a, b) && BytesBefore(b, c) ==> BytesBefore(a, c)
    decreases |a| + |b| + |c|
  {
    if a != "" && b != "" && c != "" {
      BytesAreOrdered(a[1..], b[1..], c[1..]);
      assert a == [a[0]] + a[1..] && b == [b[0]] + b[1..];
    } else if a != "" && b != "" {
      BytesAreOrdered(a[1..], b[1..], c);
      assert a == [a[0]] + a[1..] && b == [b[0]] + b[1..];
    } else if a != "" {
      BytesAreOrdered(a[1..], b, c);
    }
  }
}
