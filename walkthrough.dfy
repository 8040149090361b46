/**
 * A session through the modelled components, using only their contracts:
 * a teacher registers, signs in, fails to sign in with a wrong password,
 * creates a practice through the form, and then sees exactly that activity.
 */
module Walkthrough {
  import opened Wrappers
  import opened Types
  import opened Store
  import opened Login
  import opened ActivityForm
  import opened DashboardPage

  method RegisterSignInCreateList() returns (signedIn: SubmitOutcome, wrongPassword: SubmitOutcome, listed: seq<Activity>)
    ensures signedIn == SignedIn(NewUser("t1", "a@x.com", "pw", "Teacher One", Teacher))
    ensures wrongPassword == Alerted(InvalidCredentialsMessage)
    ensures |listed| == 1
    ensures listed[0].title == "Workshop" && listed[0].kind == Practice && listed[0].teacherId == "t1"
    ensures listed[0].fromDate == "2024-01-01" && listed[0].toDate == "2024-01-02"
  {
    var store := new Db();
    var registered := HandleSubmit(store, true, "a@x.com", "pw", "Teacher One", Teacher, "t1");
    signedIn := HandleSubmit(store, false, "a@x.com", "pw", "", Teacher, "unused");
    wrongPassword := HandleSubmit(store, false, "a@x.com", "wrong", "", Teacher, "unused");

    var form := new ActivityModal(None);
    form.Edit(SetTitle("Workshop"));
    form.Edit(SetFromDate("2024-01-01"));
    form.Edit(SetToDate("2024-01-02"));
    var draft := form.HandleSubmit();

    var dashboard := new Dashboard(store, signedIn.user);
    dashboard.HandleSaveActivity(draft, (data, name) => "summary", "act1", 1704067200000);
    listed := dashboard.FilteredActivities();
  }

  /**
   * The form as the dashboard actually holds it: built once, while nothing was
   * being edited, and changed since only by input events. Whatever was typed
   * into it, it never carries the file keys of the activity being edited, so
   * saving an edit with no newly chosen file sets the stored PDF and its name
   * to `undefined`, while the summary of that PDF stays.
   */
  lemma StaleFormErasesStoredFile(existing: Activity, edits: seq<FormEdit>, extract: (string, string) -> string)
    requires RequiredFilled(EditedAll(InitialForm(None), edits))
    ensures var form := EditedAll(InitialForm(None), edits);
      var d := Submitted(form, None, None);
      var r := UpdatedRecord(existing, d, ExtractedText(d, extract));
      && r.fileData == None && r.fileName == None
      && r.extractedContent == existing.extractedContent
      && r.id == existing.id && r.teacherId == existing.teacherId
      && r.title == form.title.value && r.description == form.description.value
  {
  }

  /**
   * A form built from the activity being edited: saving it unchanged keeps
   * every property of the activity except the summary, which is asked for
   * again when the activity has a stored file.
   */
  lemma FreshFormKeepsEditedActivity(existing: Activity, extract: (string, string) -> string)
    ensures var d := Submitted(InitialForm(Some(existing)), None, None);
      && UpdatedRecord(existing, d, ExtractedText(d, extract)).(extractedContent := existing.extractedContent) == existing
      && (!(Truthy(existing.fileData) && Truthy(existing.fileName)) ==>
          UpdatedRecord(existing, d, ExtractedText(d, extract)) == existing)
  {
  }
}
