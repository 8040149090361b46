/**
 * pages/Dashboard.tsx: what the signed-in user sees and the save and delete
 * handlers. An administrator sees every activity and the list of teachers;
 * a teacher sees their own activities. Saving merges the form's draft into a
 * new or an existing activity, after asking the extraction service for a
 * summary when the draft carries a file. The extraction service, the random
 * id, the clock and the confirmation dialog are parameters.
 */
module DashboardPage {
  import opened Wrappers
  import opened Seqs
  import opened Types
  import opened Store

  /** `a => a.teacherId === teacherId` */
  function OwnedBy(teacherId: string): Activity -> bool {
    (a: Activity) => a.teacherId == teacherId
  }

  /** `u => u.role === UserRole.TEACHER` */
  function IsTeacher(u: User): bool {
    u.role == Teacher
  }

  function IsPractice(a: Activity): bool {
    a.kind == Practice
  }

  function IsSeminar(a: Activity): bool {
    a.kind == Seminar
  }

  /** The activities owned by one teacher, in store order. */
  function ActivitiesOf(acts: seq<Activity>, teacherId: string): (r: seq<Activity>)
    ensures |r| <= |acts|
    ensures forall i :: 0 <= i < |r| ==> r[i].teacherId == teacherId && r[i] in acts
    ensures forall i :: 0 <= i < |acts| && acts[i].teacherId == teacherId ==> acts[i] in r
    ensures SubsequenceOf(r, acts)
  {
    FilterIsSubsequence(acts, OwnedBy(teacherId));
    Filter(acts, OwnedBy(teacherId))
  }

  /** Every copy of each of the teacher's activities is kept, and nothing else. */
  lemma ActivitiesOfCount(acts: seq<Activity>, teacherId: string, a: Activity)
    ensures multiset(ActivitiesOf(acts, teacherId))[a] == if a.teacherId == teacherId then multiset(acts)[a] else 0
  {
    FilterCount(acts, OwnedBy(teacherId), a);
  }

  /** The users whose role is teacher, in store order. */
  function TeachersAmong(users: seq<User>): (r: seq<User>)
    ensures forall i :: 0 <= i < |r| ==> r[i].role == Teacher && r[i] in users
    ensures forall i :: 0 <= i < |users| && users[i].role == Teacher ==> users[i] in r
    ensures SubsequenceOf(r, users)
  {
    FilterIsSubsequence(users, IsTeacher);
    Filter(users, IsTeacher)
  }

  /** What `refreshData` loads: everything for an administrator, the user's own activities otherwise. */
  function VisibleActivities(user: User, acts: seq<Activity>): (r: seq<Activity>)
    ensures user.role == Admin ==> r == acts
    ensures user.role == Teacher ==> r == ActivitiesOf(acts, user.id)
    ensures user.role == Teacher ==> forall i :: 0 <= i < |r| ==> r[i].teacherId == user.id
    ensures user.role == Teacher ==> forall i :: 0 <= i < |acts| && acts[i].teacherId == user.id ==> acts[i] in r
    ensures SubsequenceOf(r, acts)
  {
    if user.role == Admin then SubsequenceOfSelf(acts); acts else ActivitiesOf(acts, user.id)
  }

  /**
   * `filteredActivities`: an administrator who has picked a teacher sees only
   * that teacher's activities; everyone else sees the loaded list unchanged.
   */
  function Displayed(user: User, acts: seq<Activity>, selectedTeacherId: Option<string>): (r: seq<Activity>)
    ensures !(user.role == Admin && Truthy(selectedTeacherId)) ==> r == acts
    ensures user.role == Admin && Truthy(selectedTeacherId) ==> r == ActivitiesOf(acts, selectedTeacherId.value)
    ensures user.role == Admin && Truthy(selectedTeacherId) ==>
      && (forall i :: 0 <= i < |r| ==> r[i].teacherId == selectedTeacherId.value)
      && (forall i :: 0 <= i < |acts| && acts[i].teacherId == selectedTeacherId.value ==> acts[i] in r)
      && SubsequenceOf(r, acts)
  {
    if user.role == Admin && Truthy(selectedTeacherId) then ActivitiesOf(acts, selectedTeacherId.value) else acts
  }

  /** The two bars of `chartData`. */
  datatype Tally = Tally(practices: nat, seminars: nat)

  function TallyOf(acts: seq<Activity>): (t: Tally)
    ensures t.practices + t.seminars == |acts|
  {
    FilterComplementLength(acts, IsPractice, IsSeminar);
    Tally(|Filter(acts, IsPractice)|, |Filter(acts, IsSeminar)|)
  }

  /** A further activity adds one to the bar of its own type and leaves the other bar alone. */
  lemma TallyAppend(acts: seq<Activity>, a: Activity)
    ensures TallyOf(acts + [a]) ==
      if a.kind == Practice then TallyOf(acts).(practices := TallyOf(acts).practices + 1)
      else TallyOf(acts).(seminars := TallyOf(acts).seminars + 1)
  {
    FilterAppend(acts, a, IsPractice);
    FilterAppend(acts, a, IsSeminar);
  }

  /** `data.fileData && data.fileName`: the draft carries a non-empty payload and file name. */
  predicate HasPayload(d: Draft)
    ensures HasPayload(d) ==> d.fileData.Present? && d.fileData.value.Some? && d.fileData.value.value != ""
    ensures HasPayload(d) ==> d.fileName.Present? && d.fileName.value.Some? && d.fileName.value.value != ""
  {
    Truthy(Read(d.fileData)) && Truthy(Read(d.fileName))
  }

  /** The extraction service never answers with an empty string. */
  ghost predicate NeverEmpty(extract: (string, string) -> string) {
    forall data, name :: extract(data, name) != ""
  }

  /** The text `handleSaveActivity` obtains before merging. */
  function ExtractedText(d: Draft, extract: (string, string) -> string): (text: string)
    ensures NeverEmpty(extract) ==> (text != "" <==> HasPayload(d))
  {
    if HasPayload(d) then extract(Read(d.fileData).value, Read(d.fileName).value) else ""
  }

  /**
   * The service is consulted only for a draft with a file: without one the
   * text is `""` whatever the service would answer; with one it is the
   * service's answer for that payload and name.
   */
  lemma ExtractionNeedsPayload(d: Draft, extract: (string, string) -> string, other: (string, string) -> string)
    ensures !HasPayload(d) ==> ExtractedText(d, extract) == "" == ExtractedText(d, other)
    ensures HasPayload(d) ==> ExtractedText(d, extract) == extract(Read(d.fileData).value, Read(d.fileName).value)
  {
  }

  /**
   * `{...existing, ...d, extractedContent: text || existing.extractedContent}`:
   * apart from `extractedContent` it is the draft spread over the existing record.
   */
  function UpdatedRecord(existing: Activity, d: Draft, text: string): (r: Activity)
    ensures r.extractedContent == if text != "" then Some(text) else existing.extractedContent
    ensures r.(extractedContent := existing.extractedContent) == Overlay(existing, d.(extractedContent := Absent))
  {
    Overlay(existing, d).(extractedContent := if text != "" then Some(text) else existing.extractedContent)
  }

  /**
   * `{id, teacherId: ownerId, createdAt: now, extractedContent: text, ...d}`:
   * the seeded keys apply only where the draft lacks them. The form's fields
   * must be present, as the `as Activity` cast takes for granted.
   */
  function CreatedRecord(d: Draft, ownerId: string, newId: string, now: int, text: string): (r: Activity)
    requires CarriesFormFields(d)
    ensures r.id == Pick(d.id, newId) && r.teacherId == Pick(d.teacherId, ownerId)
    ensures r.createdAt == Pick(d.createdAt, now)
    ensures r.extractedContent == Pick(d.extractedContent, Some(text))
    ensures r.kind == d.kind.value && r.title == d.title.value && r.description == d.description.value
    ensures r.fromDate == d.fromDate.value && r.toDate == d.toDate.value
    ensures r.fileName == Read(d.fileName) && r.fileData == Read(d.fileData)
  {
    var seed := Activity(newId, ownerId, d.kind.value, d.title.value, d.description.value,
                         d.fromDate.value, d.toDate.value, None, None, Some(text), now);
    Overlay(seed, d)
  }

  /** Updating from a draft without a file keeps the stored summary. */
  lemma UpdateWithoutPayloadKeepsSummary(existing: Activity, d: Draft, extract: (string, string) -> string)
    requires !HasPayload(d)
    ensures UpdatedRecord(existing, d, ExtractedText(d, extract)).extractedContent == existing.extractedContent
  {
  }

  /** Updating from a draft with a file replaces the summary with the service's answer. */
  lemma UpdateWithPayloadReplacesSummary(existing: Activity, d: Draft, extract: (string, string) -> string)
    requires HasPayload(d) && NeverEmpty(extract)
    ensures UpdatedRecord(existing, d, ExtractedText(d, extract)).extractedContent
         == Some(extract(Read(d.fileData).value, Read(d.fileName).value))
  {
  }

  /** A created activity carries a non-empty summary exactly when the draft carried a file. */
  lemma CreatedSummary(d: Draft, ownerId: string, newId: string, now: int, extract: (string, string) -> string)
    requires CarriesFormFields(d) && d.extractedContent.Absent? && NeverEmpty(extract)
    ensures var r := CreatedRecord(d, ownerId, newId, now, ExtractedText(d, extract));
      r.extractedContent.Some? && (r.extractedContent.value != "" <==> HasPayload(d))
  {
  }

  class Dashboard {
    const store: Db
    /** The signed-in user. */
    const user: User
    var activities: seq<Activity>
    var teachers: seq<User>
    var selectedTeacherId: Option<string>
    /** The activity the form is editing; `None` when it creates a new one. */
    var editing: Option<Activity>

    /** The page as mounted: the effect on `user` runs `refreshData` right away. */
    constructor (store: Db, user: User)
      ensures this.store == store && this.user == user
      ensures selectedTeacherId == None && editing == None
      ensures activities == VisibleActivities(user, store.Activities())
      ensures user.role == Admin ==> teachers == TeachersAmong(store.Users())
      ensures user.role != Admin ==> teachers == []
    {
      this.store := store;
      this.user := user;
      activities := [];
      teachers := [];
      selectedTeacherId := None;
      editing := None;
      new;
      RefreshData();
    }

    /** `refreshData`: a teacher's view leaves the teacher list as it was. */
    method RefreshData()
      modifies this`activities, this`teachers
      ensures activities == VisibleActivities(user, store.Activities())
      ensures user.role == Admin ==> teachers == TeachersAmong(store.Users())
      ensures user.role != Admin ==> teachers == old(teachers)
    {
      if user.role == Admin {
        var users := store.GetUsers();
        teachers := TeachersAmong(users);
        activities := store.GetActivities();
      } else {
        var acts := store.GetActivities();
        activities := ActivitiesOf(acts, user.id);
      }
    }

    method SelectTeacher(id: Option<string>)
      modifies this`selectedTeacherId
      ensures selectedTeacherId == id
    {
      selectedTeacherId := id;
    }

    method EditActivity(a: Option<Activity>)
      modifies this`editing
      ensures editing == a
    {
      editing := a;
    }

    /**
     * `handleSaveActivity`: an update when an activity is being edited, an
     * append otherwise; then the form is closed and the view reloaded.
     */
    method HandleSaveActivity(data: Draft, extract: (string, string) -> string, newId: string, now: int)
      requires editing.None? ==> CarriesFormFields(data)
      modifies this`activities, this`teachers, this`editing, store
      ensures store.usersSlot == old(store.usersSlot)
      ensures old(editing).Some? ==>
        store.activitiesSlot == Some(ReplaceActivity(old(store.Activities()), UpdatedRecord(old(editing).value, data, ExtractedText(data, extract))))
      ensures old(editing).None? ==>
        store.activitiesSlot == Some(old(store.Activities()) + [CreatedRecord(data, user.id, newId, now, ExtractedText(data, extract))])
      ensures editing == None
      ensures activities == VisibleActivities(user, store.Activities())
      ensures user.role == Admin ==> teachers == TeachersAmong(store.Users())
      ensures user.role != Admin ==> teachers == old(teachers)
    {
      var text := ExtractedText(data, extract);
      if editing.Some? {
        store.UpdateActivity(UpdatedRecord(editing.value, data, text));
      } else {
        store.SaveActivity(CreatedRecord(data, user.id, newId, now, text));
      }
      editing := None;
      RefreshData();
    }

    /** `handleDelete`: the store changes only when the user confirmed. */
    method HandleDelete(id: string, confirmed: bool)
      modifies this`activities, this`teachers, store
      ensures store.usersSlot == old(store.usersSlot)
      ensures !confirmed ==> store.activitiesSlot == old(store.activitiesSlot)
      ensures !confirmed ==> activities == old(activities) && teachers == old(teachers)
      ensures confirmed ==> store.activitiesSlot == Some(RemoveActivity(old(store.Activities()), id))
      ensures confirmed ==> activities == VisibleActivities(user, store.Activities())
      ensures confirmed && user.role == Admin ==> teachers == TeachersAmong(store.Users())
      ensures user.role != Admin ==> teachers == old(teachers)
    {
      if confirmed {
        store.DeleteActivity(id);
        RefreshData();
      }
    }

    /** `chartData` over the loaded activities. */
    function ChartData(): (t: Tally)
      reads this
      ensures t.practices + t.seminars == |activities|
    {
      TallyOf(activities)
    }

    /** `filteredActivities` over the loaded activities. */
    function FilteredActivities(): (r: seq<Activity>)
      reads this
      ensures r == Displayed(user, activities, selectedTeacherId)
      ensures !(user.role == Admin && Truthy(selectedTeacherId)) ==> r == activities
      ensures user.role == Admin && Truthy(selectedTeacherId) ==>
        && (forall i :: 0 <= i < |r| ==> r[i].teacherId == selectedTeacherId.value)
        && (forall i :: 0 <= i < |activities| && activities[i].teacherId == selectedTeacherId.value ==> activities[i] in r)
      ensures SubsequenceOf(r, activities)
    {
      SubsequenceOfSelf(activities);
      Displayed(user, activities, selectedTeacherId)
    }
  }
}
