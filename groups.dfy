/**
 * Group resolution: which subject group a request must be served from,
 * and which lab, if any, the request prefers.
 */
module Groups {
  import opened Wrappers
  import opened Model

  /** The group a request falls back to ("Tin học", Informatics). */
  const DefaultGroup: string := "Tin học"

  /**
   * A stored lab key names a lab: it is present and not 0, the key the
   * engine's truth tests read as "no lab".
   */
  predicate NamesKey(id: Option<LabId>)
  {
    id.Some? && id.value != 0
  }

  /** The non-empty group of the lab `id` names, when that lab exists. */
  function ReferencedGroup(labs: seq<Lab>, id: Option<LabId>): Option<string>
  {
    if !NamesKey(id) then None
    else match FindLab(labs, id.value)
      case None => None
      case Some(l) => if l.group != [] then Some(l.group) else None
  }

  /** The standing preference of the request's teacher, when the teacher exists and names a lab. */
  function TeacherPreference(req: LabRequest, teachers: seq<Teacher>): Option<LabId>
  {
    match FindTeacher(teachers, req.teacher)
    case None => None
    case Some(u) => if NamesKey(u.preferredLab) then u.preferredLab else None
  }

  /**
   * The first of: the request's own group; the group of its preferred lab;
   * the group of its teacher's preferred lab; the default group.
   */
  function ResolveGroup(req: LabRequest, labs: seq<Lab>, teachers: seq<Teacher>): (g: string)
    ensures g != []
  {
    if req.group != [] then req.group
    else match ReferencedGroup(labs, req.preferredLab)
      case Some(pg) => pg
      case None =>
        match ReferencedGroup(labs, TeacherPreference(req, teachers))
        case Some(tg) => tg
        case None => DefaultGroup
  }

  /**
   * The lab the allocator tries first: the request's own preference when it
   * names one (even one that no longer resolves), else the teacher's.
   */
  function PreferredLabId(req: LabRequest, teachers: seq<Teacher>): Option<LabId>
  {
    if NamesKey(req.preferredLab) then req.preferredLab else TeacherPreference(req, teachers)
  }

  /** The resolution chain, stated against the lab and teacher tables. */
  lemma ResolveGroupChain(req: LabRequest, labs: seq<Lab>, teachers: seq<Teacher>)
    ensures req.group != [] ==> ResolveGroup(req, labs, teachers) == req.group
    ensures req.group == [] && NamesKey(req.preferredLab)
            && FindLab(labs, req.preferredLab.value).Some?
            && FindLab(labs, req.preferredLab.value).value.group != []
            ==> ResolveGroup(req, labs, teachers) == FindLab(labs, req.preferredLab.value).value.group
    ensures req.group == [] && ReferencedGroup(labs, req.preferredLab).None?
            && FindTeacher(teachers, req.teacher).Some?
            && NamesKey(FindTeacher(teachers, req.teacher).value.preferredLab)
            && FindLab(labs, FindTeacher(teachers, req.teacher).value.preferredLab.value).Some?
            && FindLab(labs, FindTeacher(teachers, req.teacher).value.preferredLab.value).value.group != []
            ==> ResolveGroup(req, labs, teachers)
                == FindLab(labs, FindTeacher(teachers, req.teacher).value.preferredLab.value).value.group
    ensures req.group == [] && ReferencedGroup(labs, req.preferredLab).None?
            && ReferencedGroup(labs, TeacherPreference(req, teachers)).None?
            ==> ResolveGroup(req, labs, teachers) == DefaultGroup
  {
  }

  /**
   * Writing the resolved group back onto the request does not change what
   * resolves later, and status does not take part in resolution.
   */
  lemma ResolveGroupWriteBack(req: LabRequest, labs: seq<Lab>, teachers: seq<Teacher>, st: Status)
    ensures ResolveGroup(req.(group := ResolveGroup(req, labs, teachers), status := st), labs, teachers)
            == ResolveGroup(req, labs, teachers)
    ensures ResolveGroup(req.(status := st), labs, teachers) == ResolveGroup(req, labs, teachers)
  {
  }

  /**
   * The lab the allocator tries first is named by the request or, failing
   * that, by its teacher; the request's own key, valid or not, hides the
   * teacher's, and a key of 0 names nothing.
   */
  lemma RequestPreferenceWins(req: LabRequest, teachers: seq<Teacher>)
    ensures PreferredLabId(req, teachers).Some? <==>
              NamesKey(req.preferredLab)
              || (FindTeacher(teachers, req.teacher).Some? && NamesKey(FindTeacher(teachers, req.teacher).value.preferredLab))
    ensures NamesKey(req.preferredLab) ==> PreferredLabId(req, teachers) == req.preferredLab
    ensures !NamesKey(req.preferredLab) && FindTeacher(teachers, req.teacher).Some? ==>
              PreferredLabId(req, teachers) == (var p := FindTeacher(teachers, req.teacher).value.preferredLab;
                                                 if NamesKey(p) then p else None)
    ensures PreferredLabId(req, teachers).Some? ==> PreferredLabId(req, teachers).value != 0
  {
  }

  /** A stored key of 0 behaves as no key at all, for allocation and for group resolution. */
  lemma ZeroKeyIsNoPreference(req: LabRequest, labs: seq<Lab>, teachers: seq<Teacher>)
    requires req.preferredLab == Some(0)
    ensures PreferredLabId(req, teachers) == PreferredLabId(req.(preferredLab := None), teachers)
    ensures ResolveGroup(req, labs, teachers) == ResolveGroup(req.(preferredLab := None), labs, teachers)
  {
  }

  /**
   * For a request without a group of its own, the lab the allocator tries
   * first sets the group whenever that lab exists and has a group.
   */
  lemma PreferredLabSetsGroup(req: LabRequest, labs: seq<Lab>, teachers: seq<Teacher>)
    requires req.group == []
    requires PreferredLabId(req, teachers).Some?
    requires FindLab(labs, PreferredLabId(req, teachers).value).Some?
    requires FindLab(labs, PreferredLabId(req, teachers).value).value.group != []
    ensures ResolveGroup(req, labs, teachers) == FindLab(labs, PreferredLabId(req, teachers).value).value.group
  {
  }
}
