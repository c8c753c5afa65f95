/**
 * The three tables the allocation engine works on (labs, lab requests and
 * reservations) plus the teachers a request points to, and the lookups the
 * engine performs on them.  Every table is a sequence in storage order.
 */
module Model {
  import opened Wrappers

  type LabId = nat
  type TeacherId = nat
  type RequestId = nat

  /** A lab (a room).  `group` is its subject group; capacity is not used by the engine. */
  datatype Lab = Lab(id: LabId, name: string, group: string, active: bool)

  /** The part of a user the engine reads: name and standing lab preference. */
  datatype Teacher = Teacher(id: TeacherId, fullName: string, preferredLab: Option<LabId>)

  datatype Status = Pending | Approved | Scheduled | Conflict

  /** A lab request.  `date` is a day number, `createdAt` the creation order. */
  datatype LabRequest = LabRequest(
    id: RequestId,
    teacher: TeacherId,
    className: string,
    group: string,
    date: int,
    period: int,
    status: Status,
    preferredLab: Option<LabId>,
    createdAt: nat)

  /** A reservation binds one lab to one request at the request's (date, period). */
  datatype Reservation = Reservation(lab: LabId, request: RequestId, date: int, period: int)

  /** The stored state the engine reads and writes. */
  datatype Tables = Tables(
    labs: seq<Lab>,
    teachers: seq<Teacher>,
    requests: seq<LabRequest>,
    reservations: seq<Reservation>)

  /** The lab with the given primary key, if any. */
  function FindLab(labs: seq<Lab>, id: LabId): (r: Option<Lab>)
    ensures r.Some? ==> r.value in labs && r.value.id == id
    ensures r.None? ==> forall l :: l in labs ==> l.id != id
  {
    if labs == [] then None
    else if labs[0].id == id then Some(labs[0])
    else FindLab(labs[1..], id)
  }

  /** The teacher with the given primary key, if any. */
  function FindTeacher(teachers: seq<Teacher>, id: TeacherId): (r: Option<Teacher>)
    ensures r.Some? ==> r.value in teachers && r.value.id == id
    ensures r.None? ==> forall u :: u in teachers ==> u.id != id
  {
    if teachers == [] then None
    else if teachers[0].id == id then Some(teachers[0])
    else FindTeacher(teachers[1..], id)
  }

  /** The primary keys of the request table, in storage order. */
  function RequestIds(rs: seq<LabRequest>): (ids: seq<RequestId>)
    ensures |ids| == |rs|
    ensures forall k :: 0 <= k < |rs| ==> ids[k] == rs[k].id
  {
    seq(|rs|, k requires 0 <= k < |rs| => rs[k].id)
  }

  /** Position of the first occurrence of `id` in `ids`. */
  function IdIndex(ids: seq<nat>, id: nat): (r: Option<nat>)
    ensures r.Some? ==> r.value < |ids| && ids[r.value] == id
    ensures r.Some? ==> forall k :: 0 <= k < r.value ==> ids[k] != id
    ensures r.None? ==> forall k :: 0 <= k < |ids| ==> ids[k] != id
  {
    if ids == [] then None
    else if ids[0] == id then Some(0)
    else match IdIndex(ids[1..], id)
      case None => None
      case Some(k) => Some(k + 1)
  }

  /** Position of the request with the given primary key. */
  function RequestIndex(rs: seq<LabRequest>, id: RequestId): (r: Option<nat>)
    ensures r.Some? ==> r.value < |rs| && rs[r.value].id == id
    ensures r.None? ==> forall k :: 0 <= k < |rs| ==> rs[k].id != id
  {
    IdIndex(RequestIds(rs), id)
  }

  /** Position of the first reservation held by request `rid`. */
  function ReservationIndex(rs: seq<Reservation>, rid: RequestId): (r: Option<nat>)
    ensures r.Some? ==> r.value < |rs| && rs[r.value].request == rid
    ensures r.Some? ==> forall k :: 0 <= k < r.value ==> rs[k].request != rid
    ensures r.None? ==> forall k :: 0 <= k < |rs| ==> rs[k].request != rid
  {
    if rs == [] then None
    else if rs[0].request == rid then Some(0)
    else match ReservationIndex(rs[1..], rid)
      case None => None
      case Some(k) => Some(k + 1)
  }

  /** Position of the first reservation of lab `lab` at (`date`, `period`). */
  function SlotHolder(rs: seq<Reservation>, lab: LabId, date: int, period: int): (r: Option<nat>)
    ensures r.Some? ==> r.value < |rs| && rs[r.value].lab == lab && rs[r.value].date == date && rs[r.value].period == period
    ensures r.None? ==> forall k :: 0 <= k < |rs| ==> !(rs[k].lab == lab && rs[k].date == date && rs[k].period == period)
  {
    if rs == [] then None
    else if rs[0].lab == lab && rs[0].date == date && rs[0].period == period then Some(0)
    else match SlotHolder(rs[1..], lab, date, period)
      case None => None
      case Some(k) => Some(k + 1)
  }

  /** The sequence without its element at position `k`. */
  function RemoveAt<T>(s: seq<T>, k: nat): (r: seq<T>)
    requires k < |s|
    ensures |r| == |s| - 1
    ensures forall j :: 0 <= j < k ==> r[j] == s[j]
    ensures forall j :: k <= j < |r| ==> r[j] == s[j + 1]
  {
    s[..k] + s[k + 1..]
  }

  /** The status strings the store holds. */
  function StatusName(s: Status): string
  {
    match s
    case Pending => "pending"
    case Approved => "approved"
    case Scheduled => "scheduled"
    case Conflict => "conflict"
  }

  /** Accepts exactly the four status strings. */
  function ParseStatus(s: string): (r: Option<Status>)
    ensures r.Some? ==> StatusName(r.value) == s
    ensures r.None? ==> forall st: Status :: StatusName(st) != s
  {
    if s == "pending" then Some(Pending)
    else if s == "approved" then Some(Approved)
    else if s == "scheduled" then Some(Scheduled)
    else if s == "conflict" then Some(Conflict)
    else None
  }

  /** Replaces the status of the request at position `i`. */
  function WithStatus(t: Tables, i: nat, st: Status): (r: Tables)
    requires i < |t.requests|
    ensures r.labs == t.labs && r.teachers == t.teachers && r.reservations == t.reservations
    ensures |r.requests| == |t.requests| && r.requests[i] == t.requests[i].(status := st)
    ensures forall k :: 0 <= k < |t.requests| && k != i ==> r.requests[k] == t.requests[k]
  {
    t.(requests := t.requests[i := t.requests[i].(status := st)])
  }
}
