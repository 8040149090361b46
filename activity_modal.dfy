/**
 * components/ActivityModal.tsx: the activity form. Its state is the partial
 * activity being edited, plus the data URL and name of a newly chosen file.
 * Choosing a file accepts only PDFs; submitting builds the draft handed to
 * the dashboard. Reading the file is asynchronous in the browser; here the
 * file's data URL arrives with the choice.
 */
module ActivityForm {
  import opened Wrappers
  import opened Types

  const PdfMimeType := "application/pdf"
  const PdfOnlyMessage := "Only PDF files are allowed."

  /** `s.split(sep)` for a one-character separator: the pieces between separators. */
  function Split(s: string, sep: char): (parts: seq<string>)
    ensures |parts| >= 1
    ensures forall i :: 0 <= i < |parts| ==> sep !in parts[i]
  {
    if s == [] then [""]
    else if s[0] == sep then [""] + Split(s[1..], sep)
    else
      var rest := Split(s[1..], sep);
      [[s[0]] + rest[0]] + rest[1..]
  }

  /** `parts.join(sep)` */
  function Join(parts: seq<string>, sep: char): string
    requires |parts| >= 1
  {
    if |parts| == 1 then parts[0] else parts[0] + [sep] + Join(parts[1..], sep)
  }

  /** Splitting loses nothing: joining the pieces again gives back the string. */
  lemma {:induction false} SplitJoin(s: string, sep: char)
    ensures Join(Split(s, sep), sep) == s
  {
    if s != [] {
      SplitJoin(s[1..], sep);
      var rest := Split(s[1..], sep);
      if s[0] != sep && |rest| > 1 {
        assert Split(s, sep)[1..] == rest[1..];
      }
    }
  }

  /** A string without the separator splits into itself alone. */
  lemma {:induction false} SplitNoSeparator(s: string, sep: char)
    requires sep !in s
    ensures Split(s, sep) == [s]
  {
    if s != [] {
      SplitNoSeparator(s[1..], sep);
      assert [s[0]] + s[1..] == s;
    }
  }

  /** Splitting at the first separator: the text before it, then the pieces of the rest. */
  lemma {:induction false} SplitFirst(prefix: string, sep: char, rest: string)
    requires sep !in prefix
    ensures Split(prefix + [sep] + rest, sep) == [prefix] + Split(rest, sep)
  {
    if prefix != [] {
      var t := prefix + [sep] + rest;
      SplitFirst(prefix[1..], sep, rest);
      assert t[0] == prefix[0] && t[1..] == prefix[1..] + [sep] + rest;
      var r := Split(t[1..], sep);
      assert r[0] == prefix[1..] && r[1..] == Split(rest, sep);
      assert [prefix[0]] + prefix[1..] == prefix;
    } else {
      assert prefix + [sep] + rest == [sep] + rest;
    }
  }

  /** A string splits into more than one piece exactly when it contains the separator. */
  lemma {:induction false} SplitSeveralPieces(s: string, sep: char)
    ensures |Split(s, sep)| > 1 <==> sep in s
  {
    if s != [] {
      SplitSeveralPieces(s[1..], sep);
      assert s == [s[0]] + s[1..];
    }
  }

  /** `dataUrl.split(',')[1]`: the text between the first and the second comma, `undefined` without a comma. */
  function Base64Part(dataUrl: string): (r: Option<string>)
    ensures r.Some? <==> ',' in dataUrl
    ensures r.Some? ==> ',' !in r.value
  {
    SplitSeveralPieces(dataUrl, ',');
    var parts := Split(dataUrl, ',');
    if |parts| > 1 then Some(parts[1]) else None
  }

  /** For a data URL `<header>,<payload>` whose payload has no comma, the payload is what is kept. */
  lemma Base64PartOfDataUrl(header: string, payload: string)
    requires ',' !in header && ',' !in payload
    ensures Base64Part(header + "," + payload) == Some(payload)
  {
    SplitFirst(header, ',', payload);
    SplitNoSeparator(payload, ',');
  }

  /** The form's starting contents: `initialData`, or a blank practice. */
  function InitialForm(initialData: Option<Activity>): (form: Draft)
    ensures CarriesFormFields(form)
    ensures initialData.None? ==>
      && form.kind == Present(Practice)
      && form.title == Present("") && form.description == Present("")
      && form.fromDate == Present("") && form.toDate == Present("")
    ensures initialData.Some? ==> Overlay(initialData.value, form) == initialData.value
  {
    match initialData
    case Some(a) => AsDraft(a)
    case None => EmptyDraft.(kind := Present(Practice), title := Present(""), description := Present(""),
                             fromDate := Present(""), toDate := Present(""))
  }

  /**
   * The draft `handleSubmit` hands on: every key of the form, with `fileData`
   * and `fileName` always present.
   */
  function Submitted(form: Draft, fileBase64: Option<string>, fileName: Option<string>): (d: Draft)
    ensures d.(fileData := form.fileData, fileName := form.fileName) == form
    ensures d.fileData.Present? && d.fileName.Present?
    ensures !Truthy(fileBase64) ==> d.fileData == Present(Read(form.fileData))
    ensures !Truthy(fileName) ==> d.fileName == Present(Read(form.fileName))
    ensures CarriesFormFields(form) ==> CarriesFormFields(d)
    ensures RequiredFilled(form) ==> RequiredFilled(d)
  {
    form.(
      fileData := Present(if Truthy(fileBase64) then Base64Part(fileBase64.value) else Read(form.fileData)),
      fileName := Present(if Truthy(fileName) then fileName else Read(form.fileName)))
  }

  /** After a PDF was read, the draft carries its base64 payload and its name. */
  lemma SubmittedWithNewFile(form: Draft, header: string, payload: string, name: string)
    requires ',' !in header && ',' !in payload && name != ""
    ensures var d := Submitted(form, Some(header + "," + payload), Some(name));
      d.fileData == Present(Some(payload)) && d.fileName == Present(Some(name))
  {
    Base64PartOfDataUrl(header, payload);
  }

  /** Editing an activity without choosing a file keeps its stored file when the draft is spread over it. */
  lemma SubmittedKeepsStoredFile(a: Activity)
    ensures var r := Overlay(a, Submitted(AsDraft(a), None, None));
      r == a
  {
  }

  /** A file the user picked: its MIME type, its name and, once read, its contents as a data URL. */
  datatype PickedFile = PickedFile(mimeType: string, name: string, dataUrl: string)

  datatype FileOutcome = NoFile | Rejected(message: string) | Accepted

  /** One of the form's input handlers. */
  datatype FormEdit =
    | SetKind(kind: ActivityType)
    | SetTitle(title: string)
    | SetFromDate(fromDate: string)
    | SetToDate(toDate: string)
    | SetDescription(description: string)

  /** `setFormData({...formData, <field>: value})` */
  function Edited(form: Draft, e: FormEdit): (r: Draft)
    ensures CarriesFormFields(form) ==> CarriesFormFields(r)
  {
    match e
    case SetKind(k) => form.(kind := Present(k))
    case SetTitle(t) => form.(title := Present(t))
    case SetFromDate(f) => form.(fromDate := Present(f))
    case SetToDate(t) => form.(toDate := Present(t))
    case SetDescription(s) => form.(description := Present(s))
  }

  /** The form after a series of input events: only the edited fields change, never the file keys. */
  function EditedAll(form: Draft, edits: seq<FormEdit>): (r: Draft)
    ensures CarriesFormFields(form) ==> CarriesFormFields(r)
    ensures r.fileData == form.fileData && r.fileName == form.fileName
    ensures r.id == form.id && r.teacherId == form.teacherId
    ensures r.extractedContent == form.extractedContent && r.createdAt == form.createdAt
    decreases |edits|
  {
    if edits == [] then form else EditedAll(Edited(form, edits[0]), edits[1..])
  }

  /**
   * The inputs marked `required`: the browser fires the form's submit handler
   * only when the title and both dates are non-empty.
   */
  predicate RequiredFilled(form: Draft) {
    && form.title.Present? && form.title.value != ""
    && form.fromDate.Present? && form.fromDate.value != ""
    && form.toDate.Present? && form.toDate.value != ""
  }

  class ActivityModal {
    var formData: Draft
    /** The data URL of the chosen file, `null` until one is read. */
    var fileBase64: Option<string>
    /** The name of the chosen file, `null` until one is read. */
    var fileName: Option<string>

    /** The form always holds the keys of its input fields. */
    ghost predicate Valid()
      reads this
    {
      CarriesFormFields(formData)
    }

    constructor (initialData: Option<Activity>)
      ensures Valid()
      ensures formData == InitialForm(initialData)
      ensures fileBase64 == None && fileName == None
    {
      formData := InitialForm(initialData);
      fileBase64 := None;
      fileName := None;
    }

    method Edit(e: FormEdit)
      requires Valid()
      modifies this`formData
      ensures Valid()
      ensures formData == Edited(old(formData), e)
    {
      formData := Edited(formData, e);
    }

    /** `handleFileChange`: a non-PDF file is refused and the chosen file stays as it was. */
    method HandleFileChange(file: Option<PickedFile>) returns (outcome: FileOutcome)
      modifies this`fileBase64, this`fileName
      ensures file.None? ==> outcome == NoFile
      ensures file.Some? && file.value.mimeType != PdfMimeType ==> outcome == Rejected(PdfOnlyMessage)
      ensures file.Some? && file.value.mimeType == PdfMimeType ==> outcome == Accepted
      ensures outcome == Accepted ==> fileBase64 == Some(file.value.dataUrl) && fileName == Some(file.value.name)
      ensures outcome != Accepted ==> fileBase64 == old(fileBase64) && fileName == old(fileName)
    {
      if file.None? {
        return NoFile;
      }
      if file.value.mimeType != PdfMimeType {
        return Rejected(PdfOnlyMessage);
      }
      fileBase64 := Some(file.value.dataUrl);
      fileName := Some(file.value.name);
      outcome := Accepted;
    }

    /** `handleSubmit`: the draft passed to `onSave`, once the required inputs are filled. */
    method HandleSubmit() returns (draft: Draft)
      requires Valid() && RequiredFilled(formData)
      ensures draft == Submitted(formData, fileBase64, fileName)
      ensures CarriesFormFields(draft) && RequiredFilled(draft)
    {
      draft := Submitted(formData, fileBase64, fileName);
    }
  }
}
