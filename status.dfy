/**
 * The client's status normalisation, `mapStatus`, and the client's own
 * `TaskStatus` enum. A status reaches the client either as the backend enum's
 * name (a string) or as its underlying number; both must display alike.
 */
module Status {

  import Domain

  /** A `number | string` argument. A JavaScript number is modelled as a real; NaN and the infinities are not. */
  datatype StatusValue = Num(n: real) | Str(s: string)

  /** What `mapStatus` shows for a number that is no status code. */
  const Unknown: string := "Unknown"

  /** `mapStatus`: strings pass through, the codes 0, 1, 2 get their names, any other number is "Unknown". */
  function MapStatus(status: StatusValue): (r: string)
    ensures status.Str? ==> r == status.s
    ensures status.Num? ==> r in {"New", "InProgress", "Completed", Unknown}
  {
    match status
    case Str(s) => s
    case Num(n) =>
      if n == 0.0 then "New"
      else if n == 1.0 then "InProgress"
      else if n == 2.0 then "Completed"
      else Unknown
  }

  /** A number is shown as "Unknown" exactly when it is no status code. */
  lemma MapStatusUnknown(n: real)
    ensures MapStatus(Num(n)) == Unknown <==> n !in {0.0, 1.0, 2.0}
  {
  }

  /** The number of a backend status and its name on the wire are both shown as that name. */
  lemma MapStatusAgrees(s: Domain.TaskStatus)
    ensures MapStatus(Num(Domain.Code(s) as real)) == Domain.Name(s)
    ensures MapStatus(Str(Domain.Name(s))) == Domain.Name(s)
  {
  }

  /** The number shown under a status name is the code of that status, and only of it. */
  lemma MapStatusInjectiveOnCodes(n: real, s: Domain.TaskStatus)
    ensures MapStatus(Num(n)) == Domain.Name(s) <==> n == Domain.Code(s) as real
  {
  }

  /**
   * A status as an HTTP response writes it: the controllers' JSON options
   * carry a string enum converter, which writes a declared member by its name
   * and any other value as its number.
   */
  function FromHttp(c: Domain.Int32): (v: StatusValue)
    ensures v.Str? <==> Domain.FromCode(c).Some?
    ensures v.Num? ==> v.n == c as real
    ensures v.Str? ==> v.s == Domain.Name(Domain.FromCode(c).value)
  {
    match Domain.FromCode(c)
    case Some(s) => Str(Domain.Name(s))
    case None => Num(c as real)
  }

  /** A status as a hub message writes it: the hub's JSON options are the defaults, which write every enum value as its number. */
  function FromHub(c: Domain.Int32): (v: StatusValue)
    ensures v.Num? && v.n == c as real
  {
    Num(c as real)
  }

  /**
   * A task shows the same status whether the client got it from a GET or from
   * a hub message: the member's name for a declared value, "Unknown" for any
   * other.
   */
  lemma SameStatusEitherWay(c: Domain.Int32)
    ensures MapStatus(FromHttp(c)) == MapStatus(FromHub(c))
    ensures Domain.FromCode(c).Some? ==> MapStatus(FromHub(c)) == Domain.Name(Domain.FromCode(c).value)
    ensures Domain.FromCode(c).None? <==> MapStatus(FromHub(c)) == Unknown
  {
    match Domain.FromCode(c)
    case Some(s) => MapStatusAgrees(s);
    case None => MapStatusUnknown(c as real);
  }

  /** The client's `TaskStatus` enum. */
  datatype ClientTaskStatus = New | InProgress | Completed

  /** The client enum member's underlying number. */
  function ClientCode(c: ClientTaskStatus): (r: int)
    ensures 0 <= r < 3
    ensures r == 0 <==> c == New
    ensures r == 2 <==> c == Completed
  {
    match c
    case New => 0
    case InProgress => 1
    case Completed => 2
  }

  /** The client member named like a backend member. */
  function ToClient(s: Domain.TaskStatus): (c: ClientTaskStatus)
    ensures ClientCode(c) == Domain.Code(s) as int
  {
    match s
    case New => New
    case InProgress => InProgress
    case Completed => Completed
  }

  /** Pairing members by name is pairing them by number, one to one. */
  lemma EnumsAgree(s: Domain.TaskStatus, c: ClientTaskStatus)
    ensures ToClient(s) == c <==> ClientCode(c) == Domain.Code(s) as int
  {
  }
}
