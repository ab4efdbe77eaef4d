/**
 * `DatabaseConverters`: how Room stores instants (epoch milliseconds) and
 * the two enums (their constant names), each mapping null to null.
 */
module Converters {
  import opened Wrappers
  import opened Calendar
  import opened Entities

  const NanosPerMilli: int := 1_000_000

  /** `Instant.ofEpochMilli`. */
  function OfEpochMilli(ms: int): Instant {
    ms * NanosPerMilli
  }

  /** `Instant.toEpochMilli`: the floor of the instant in milliseconds. */
  function ToEpochMilli(i: Instant): (ms: int)
    ensures OfEpochMilli(ms) <= i < OfEpochMilli(ms + 1)
  {
    i / NanosPerMilli
  }

  /** `fromEpoch`. */
  function FromEpoch(value: Option<int>): (r: Option<Instant>)
    ensures r.None? <==> value.None?
  {
    match value
    case None => None
    case Some(ms) => Some(OfEpochMilli(ms))
  }

  /** `toEpoch`. */
  function ToEpoch(instant: Option<Instant>): (r: Option<int>)
    ensures r.None? <==> instant.None?
  {
    match instant
    case None => None
    case Some(i) => Some(ToEpochMilli(i))
  }

  /** Whole milliseconds survive a stored value's trip back. */
  lemma EpochRoundTrip(value: Option<int>)
    ensures ToEpoch(FromEpoch(value)) == value
  {
  }

  /** An instant comes back unchanged from storage exactly when it is a whole millisecond. */
  lemma InstantRoundTrip(i: Instant)
    ensures FromEpoch(ToEpoch(Some(i))) == Some(i) <==> i % NanosPerMilli == 0
  {
  }

  /** What an instant reads back as after it was stored: truncated to the millisecond below. */
  function Stored(i: Instant): (r: Instant)
    ensures r <= i < r + NanosPerMilli
    ensures r % NanosPerMilli == 0
  {
    FromEpoch(ToEpoch(Some(i))).value
  }

  /** The constant names `TaskStatus.name` gives. */
  function StatusName(s: TaskStatus): string {
    match s
    case PENDING => "PENDING"
    case REVIEW => "REVIEW"
    case COMPLETED => "COMPLETED"
    case SNOOZED => "SNOOZED"
  }

  function SourceName(s: TaskSource): string {
    match s
    case GMAIL => "GMAIL"
    case NAVER => "NAVER"
    case SMS => "SMS"
    case KAKAO => "KAKAO"
    case OCR => "OCR"
    case OTHER => "OTHER"
  }

  /** The `IllegalArgumentException` that `valueOf` throws for a name that is no constant. */
  datatype ConvertError = NoSuchConstant(name: string)

  /** `toStatus`. */
  function ToStatus(status: Option<TaskStatus>): (r: Option<string>)
    ensures r.None? <==> status.None?
  {
    match status
    case None => None
    case Some(s) => Some(StatusName(s))
  }

  /** `fromStatus`: `TaskStatus.valueOf`, which accepts exactly the constant names. */
  function FromStatus(name: Option<string>): (r: Result<Option<TaskStatus>, ConvertError>)
    ensures name.None? ==> r == Success(None)
    ensures name.Some? ==> (r.Success? <==> exists s :: StatusName(s) == name.value)
    ensures r.Success? && name.Some? ==> r.value.Some? && StatusName(r.value.value) == name.value
  {
    match name
    case None => Success(None)
    case Some(n) =>
      if n == StatusName(PENDING) then Success(Some(PENDING))
      else if n == StatusName(REVIEW) then Success(Some(REVIEW))
      else if n == StatusName(COMPLETED) then Success(Some(COMPLETED))
      else if n == StatusName(SNOOZED) then Success(Some(SNOOZED))
      else Failure(NoSuchConstant(n))
  }

  /** `toSource`. */
  function ToSource(source: Option<TaskSource>): (r: Option<string>)
    ensures r.None? <==> source.None?
  {
    match source
    case None => None
    case Some(s) => Some(SourceName(s))
  }

  /** `fromSource`: `TaskSource.valueOf`. */
  function FromSource(name: Option<string>): (r: Result<Option<TaskSource>, ConvertError>)
    ensures name.None? ==> r == Success(None)
    ensures name.Some? ==> (r.Success? <==> exists s :: SourceName(s) == name.value)
    ensures r.Success? && name.Some? ==> r.value.Some? && SourceName(r.value.value) == name.value
  {
    match name
    case None => Success(None)
    case Some(n) =>
      if n == SourceName(GMAIL) then Success(Some(GMAIL))
      else if n == SourceName(NAVER) then Success(Some(NAVER))
      else if n == SourceName(SMS) then Success(Some(SMS))
      else if n == SourceName(KAKAO) then Success(Some(KAKAO))
      else if n == SourceName(OCR) then Success(Some(OCR))
      else if n == SourceName(OTHER) then Success(Some(OTHER))
      else Failure(NoSuchConstant(n))
  }

  /** A status comes back from its stored name. */
  lemma StatusRoundTrip(status: Option<TaskStatus>)
    ensures FromStatus(ToStatus(status)) == Success(status)
  {
    if status.Some? {
      NamesDistinct();
    }
  }

  /** A source comes back from its stored name. */
  lemma SourceRoundTrip(source: Option<TaskSource>)
    ensures FromSource(ToSource(source)) == Success(source)
  {
    if source.Some? {
      NamesDistinct();
    }
  }

  /** Different constants are stored under different names. */
  lemma NamesDistinct()
    ensures forall a, b :: StatusName(a) == StatusName(b) ==> a == b
    ensures forall a, b :: SourceName(a) == SourceName(b) ==> a == b
  {
  }
}
