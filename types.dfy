/**
 * The records of types.ts, and `Partial<Activity>` (the "draft" that the
 * activity form hands to the dashboard) with JavaScript's object spread
 * over it.
 */
module Types {
  import opened Wrappers

  datatype UserRole = Teacher | Admin

  datatype TeacherProfile = TeacherProfile(
    contactInfo: string,
    qualifications: string,
    bio: string,
    specialization: string)

  /** `password` and `profile` are optional properties. */
  datatype User = User(
    id: string,
    name: string,
    email: string,
    role: UserRole,
    password: Option<string>,
    profile: Option<TeacherProfile>)

  /** The string union `'PRACTICE' | 'SEMINAR'` of `Activity.type`. */
  datatype ActivityType = Practice | Seminar

  /**
   * `fileName`, `fileData` (base64) and `extractedContent` are optional;
   * `type` is a Dafny keyword, so the field is called `kind`. `createdAt`
   * is a millisecond timestamp.
   */
  datatype Activity = Activity(
    id: string,
    teacherId: string,
    kind: ActivityType,
    title: string,
    description: string,
    fromDate: string,
    toDate: string,
    fileName: Option<string>,
    fileData: Option<string>,
    extractedContent: Option<string>,
    createdAt: int)

  /**
   * Whether an object has a key. A present key overrides on spread even when
   * its value is `undefined`, so for an optional property `T` is `Option<string>`
   * and `Present(None)` is a key holding `undefined`.
   */
  datatype Key<T> = Absent | Present(value: T)

  /** Reading a property: a missing key reads as `undefined`. */
  function Read<T>(k: Key<Option<T>>): Option<T> {
    match k
    case Absent => None
    case Present(v) => v
  }

  /** `Partial<Activity>`: every key of an activity may be missing. */
  datatype Draft = Draft(
    id: Key<string>,
    teacherId: Key<string>,
    kind: Key<ActivityType>,
    title: Key<string>,
    description: Key<string>,
    fromDate: Key<string>,
    toDate: Key<string>,
    fileName: Key<Option<string>>,
    fileData: Key<Option<string>>,
    extractedContent: Key<Option<string>>,
    createdAt: Key<int>)

  const EmptyDraft := Draft(Absent, Absent, Absent, Absent, Absent, Absent, Absent, Absent, Absent, Absent, Absent)

  /** An activity seen as a partial activity: `{...a}`. An optional property that is `undefined` is not stored, so its key is missing. */
  function AsDraft(a: Activity): (d: Draft)
    ensures CarriesFormFields(d)
    ensures Read(d.fileName) == a.fileName && Read(d.fileData) == a.fileData
    ensures Read(d.extractedContent) == a.extractedContent
  {
    Draft(Present(a.id), Present(a.teacherId), Present(a.kind), Present(a.title), Present(a.description),
          Present(a.fromDate), Present(a.toDate), KeyOf(a.fileName), KeyOf(a.fileData),
          KeyOf(a.extractedContent), Present(a.createdAt))
  }

  function KeyOf(v: Option<string>): Key<Option<string>> {
    if v.Some? then Present(v) else Absent
  }

  function Pick<T>(k: Key<T>, fallback: T): T {
    if k.Present? then k.value else fallback
  }

  /** `{...base, ...d}`: every key present in `d` overrides, every other key keeps `base`'s value. */
  function Overlay(base: Activity, d: Draft): (r: Activity)
    ensures d.id.Present? ==> r.id == d.id.value
    ensures d.id.Absent? ==> r.id == base.id
    ensures d.teacherId.Present? ==> r.teacherId == d.teacherId.value
    ensures d.teacherId.Absent? ==> r.teacherId == base.teacherId
    ensures d.kind.Present? ==> r.kind == d.kind.value
    ensures d.kind.Absent? ==> r.kind == base.kind
    ensures d.title.Present? ==> r.title == d.title.value
    ensures d.title.Absent? ==> r.title == base.title
    ensures d.description.Present? ==> r.description == d.description.value
    ensures d.description.Absent? ==> r.description == base.description
    ensures d.fromDate.Present? ==> r.fromDate == d.fromDate.value
    ensures d.fromDate.Absent? ==> r.fromDate == base.fromDate
    ensures d.toDate.Present? ==> r.toDate == d.toDate.value
    ensures d.toDate.Absent? ==> r.toDate == base.toDate
    ensures d.fileName.Present? ==> r.fileName == d.fileName.value
    ensures d.fileName.Absent? ==> r.fileName == base.fileName
    ensures d.fileData.Present? ==> r.fileData == d.fileData.value
    ensures d.fileData.Absent? ==> r.fileData == base.fileData
    ensures d.extractedContent.Present? ==> r.extractedContent == d.extractedContent.value
    ensures d.extractedContent.Absent? ==> r.extractedContent == base.extractedContent
    ensures d.createdAt.Present? ==> r.createdAt == d.createdAt.value
    ensures d.createdAt.Absent? ==> r.createdAt == base.createdAt
  {
    Activity(
      Pick(d.id, base.id), Pick(d.teacherId, base.teacherId), Pick(d.kind, base.kind),
      Pick(d.title, base.title), Pick(d.description, base.description),
      Pick(d.fromDate, base.fromDate), Pick(d.toDate, base.toDate),
      Pick(d.fileName, base.fileName), Pick(d.fileData, base.fileData),
      Pick(d.extractedContent, base.extractedContent), Pick(d.createdAt, base.createdAt))
  }

  /** Spreading an object with no keys changes nothing. */
  lemma OverlayEmpty(base: Activity)
    ensures Overlay(base, EmptyDraft) == base
  {
  }

  /**
   * Spreading a whole activity over another record yields that activity, except
   * that an optional property the spread activity lacks keeps the other record's value.
   */
  lemma OverlayWhole(base: Activity, a: Activity)
    ensures var r := Overlay(base, AsDraft(a));
      && r.(fileName := a.fileName, fileData := a.fileData, extractedContent := a.extractedContent) == a
      && r.fileName == (if a.fileName.Some? then a.fileName else base.fileName)
      && r.fileData == (if a.fileData.Some? then a.fileData else base.fileData)
      && r.extractedContent == (if a.extractedContent.Some? then a.extractedContent else base.extractedContent)
  {
  }

  /** Spreading an activity over itself changes nothing. */
  lemma OverlaySelf(a: Activity)
    ensures Overlay(a, AsDraft(a)) == a
  {
  }

  /** Spreading the same keys twice is spreading them once. */
  lemma OverlayIdempotent(base: Activity, d: Draft)
    ensures Overlay(Overlay(base, d), d) == Overlay(base, d)
  {
  }

  /** The keys the activity form always supplies: the form's required fields. */
  predicate CarriesFormFields(d: Draft) {
    d.kind.Present? && d.title.Present? && d.description.Present? && d.fromDate.Present? && d.toDate.Present?
  }
}
