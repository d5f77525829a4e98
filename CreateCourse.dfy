/**
 * The state logic of the teacher's four-step "create course" wizard:
 * step navigation with a guard per step, a duplicate-free list of trimmed
 * tags, the PDF upload check, the privacy switch and the choice of the
 * fields that are submitted. Rendering, toasts, local storage and the
 * network request are not part of this model.
 */
module CreateCourse {
  import opened Optional
  import opened JsString

  // ---------------------------------------------------------------- upload

  /** A file chosen in the upload input: its browser-reported MIME type and size in bytes. */
  datatype PdfFile = PdfFile(name: string, mimeType: string, size: nat)

  const PdfMimeType: string := "application/pdf"

  /** The upload limit, 10 · 1024 · 1024 bytes. */
  const MaxPdfBytes: nat := 10 * 1024 * 1024

  /** What the upload handler decides about the chosen files. */
  datatype UploadVerdict =
    | NoFile            // nothing chosen: silently ignored
    | NotPdf            // "Please select a PDF file"
    | TooLarge          // "File size should be less than 10MB"
    | Accepted(file: PdfFile)

  /**
   * The check of the upload handler on the input's file list: only the
   * first file counts; its type is checked before its size.
   */
  function CheckUpload(files: seq<PdfFile>): (r: UploadVerdict)
    ensures r.NoFile? <==> files == []
    ensures files != [] && files[0].mimeType != PdfMimeType ==> r == NotPdf
    ensures r.TooLarge? <==> files != [] && files[0].mimeType == PdfMimeType && files[0].size > 10485760
    ensures r.Accepted? <==> files != [] && files[0].mimeType == PdfMimeType && files[0].size <= 10485760
    ensures r.Accepted? ==> r.file == files[0]
  {
    if files == [] then NoFile
    else if files[0].mimeType != PdfMimeType then NotPdf
    else if files[0].size > MaxPdfBytes then TooLarge
    else Accepted(files[0])
  }

  /** A PDF of exactly 10 MiB passes; one byte more does not. */
  lemma UploadLimitIsInclusive(name: string)
    ensures CheckUpload([PdfFile(name, PdfMimeType, 10485760)]).Accepted?
    ensures CheckUpload([PdfFile(name, PdfMimeType, 10485761)]) == TooLarge
  {
  }

  // ------------------------------------------------------------------ tags

  /** The tag list together with the text of the tag input box. */
  datatype TagEditor = TagEditor(tags: seq<string>, tagInput: string)

  predicate NoDuplicates(s: seq<string>) {
    forall i, j :: 0 <= i < j < |s| ==> s[i] != s[j]
  }

  /** Every tag is non-empty, already trimmed, and occurs once. */
  predicate WellFormedTags(tags: seq<string>) {
    && NoDuplicates(tags)
    && forall i :: 0 <= i < |tags| ==> tags[i] != "" && Trim(tags[i]) == tags[i]
  }

  /** The condition under which "Add" takes the typed text as a new tag. */
  predicate AcceptsTag(tags: seq<string>, input: string) {
    Trim(input) != "" && Trim(input) !in tags
  }

  /**
   * Pressing "Add" (or Enter): the trimmed input is appended and the input
   * box cleared when the trimmed text is non-empty and new; otherwise
   * nothing changes. A well-formed tag list stays well-formed.
   */
  function AddTagTo(e: TagEditor): (r: TagEditor)
    ensures AcceptsTag(e.tags, e.tagInput) ==>
              r.tags == e.tags + [Trim(e.tagInput)] && r.tagInput == ""
    ensures !AcceptsTag(e.tags, e.tagInput) ==> r == e
    ensures WellFormedTags(e.tags) ==> WellFormedTags(r.tags)
  {
    var t := Trim(e.tagInput);
    if t != "" && t !in e.tags then
      TrimIdempotent(e.tagInput);
      AppendKeepsWellFormed(e.tags, t);
      TagEditor(e.tags + [t], "")
    else e
  }

  lemma AppendKeepsWellFormed(tags: seq<string>, t: string)
    requires t != "" && Trim(t) == t && t !in tags
    ensures WellFormedTags(tags) ==> WellFormedTags(tags + [t])
  {
    if WellFormedTags(tags) {
      var s := tags + [t];
      forall i | 0 <= i < |s| ensures s[i] != "" && Trim(s[i]) == s[i] {
        if i < |tags| { assert s[i] == tags[i]; }
      }
      forall i, j | 0 <= i < j < |s| ensures s[i] != s[j] {
        if j < |tags| { assert s[i] == tags[i] && s[j] == tags[j]; }
        else { assert s[i] == tags[i]; }
      }
    }
  }

  /**
   * The tag list filtered by `tag !== t`: every entry equal to `t` goes,
   * every other entry stays, and nothing new appears.
   */
  function RemoveTagFrom(tags: seq<string>, t: string): (r: seq<string>)
    ensures forall x :: x in r <==> x in tags && x != t
    ensures t !in tags ==> r == tags
    ensures |r| <= |tags|
    ensures NoDuplicates(tags) ==> NoDuplicates(r)
  {
    if tags == [] then []
    else
      var rest := RemoveTagFrom(tags[1..], t);
      assert NoDuplicates(tags) ==> NoDuplicates(tags[1..]) && tags[0] !in tags[1..];
      if tags[0] == t then rest
      else
        assert NoDuplicates(rest) && tags[0] !in rest ==> NoDuplicates([tags[0]] + rest);
        [tags[0]] + rest
  }

  /** Removing a tag keeps a well-formed list well-formed. */
  lemma RemoveTagKeepsWellFormed(tags: seq<string>, t: string)
    requires WellFormedTags(tags)
    ensures WellFormedTags(RemoveTagFrom(tags, t))
  {
    var r := RemoveTagFrom(tags, t);
    forall i | 0 <= i < |r| ensures r[i] != "" && Trim(r[i]) == r[i] {
      assert r[i] in tags;
      var j :| 0 <= j < |tags| && tags[j] == r[i];
    }
  }

  /** Filtering distributes over concatenation. */
  lemma {:induction false} RemoveTagFromAppend(a: seq<string>, b: seq<string>, t: string)
    ensures RemoveTagFrom(a + b, t) == RemoveTagFrom(a, t) + RemoveTagFrom(b, t)
  {
    if a == [] {
      assert a + b == b;
    } else {
      assert (a + b)[1..] == a[1..] + b;
      RemoveTagFromAppend(a[1..], b, t);
    }
  }

  /**
   * In a duplicate-free list, removing the tag at position `k` leaves the
   * other tags in their original order.
   */
  lemma {:induction false} RemoveTagKeepsOrder(tags: seq<string>, k: nat)
    requires NoDuplicates(tags) && k < |tags|
    ensures RemoveTagFrom(tags, tags[k]) == tags[..k] + tags[k + 1..]
  {
    var t := tags[k];
    assert tags == tags[..k] + [t] + tags[k + 1..];
    RemoveTagFromAppend(tags[..k] + [t], tags[k + 1..], t);
    RemoveTagFromAppend(tags[..k], [t], t);
    assert t !in tags[..k];
    assert t !in tags[k + 1..] by {
      forall j | k + 1 <= j < |tags| ensures tags[j] != t { }
    }
  }

  /** Removing a tag that "Add" has just accepted restores the earlier list. */
  lemma AddThenRemove(e: TagEditor)
    requires AcceptsTag(e.tags, e.tagInput)
    ensures RemoveTagFrom(AddTagTo(e).tags, Trim(e.tagInput)) == e.tags
  {
    var t := Trim(e.tagInput);
    RemoveTagFromAppend(e.tags, [t], t);
    assert e.tags + [] == e.tags;
  }

  /** What the user does in the tag area. */
  datatype TagAction =
    | TypeTag(text: string)    // typing into the tag box
    | PressAdd                 // the "Add" button or Enter
    | PressRemove(tag: string) // the "×" on a tag

  function ApplyTagAction(e: TagEditor, a: TagAction): TagEditor {
    match a
    case TypeTag(text) => e.(tagInput := text)
    case PressAdd => AddTagTo(e)
    case PressRemove(t) => e.(tags := RemoveTagFrom(e.tags, t))
  }

  function ApplyTagActions(e: TagEditor, actions: seq<TagAction>): TagEditor
    decreases |actions|
  {
    if actions == [] then e else ApplyTagActions(ApplyTagAction(e, actions[0]), actions[1..])
  }

  /**
   * Starting from a well-formed list (the initial `[]` is one), any sequence
   * of typing, adding and removing keeps the tags free of duplicates, empty
   * strings and untrimmed entries.
   */
  lemma {:induction false} TagActionsKeepTagsWellFormed(e: TagEditor, actions: seq<TagAction>)
    requires WellFormedTags(e.tags)
    ensures WellFormedTags(ApplyTagActions(e, actions).tags)
    decreases |actions|
  {
    if actions != [] {
      if actions[0].PressRemove? {
        RemoveTagKeepsWellFormed(e.tags, actions[0].tag);
      }
      TagActionsKeepTagsWellFormed(ApplyTagAction(e, actions[0]), actions[1..]);
    }
  }

  // ----------------------------------------------------------------- steps

  const FirstStep: int := 1
  const LastStep: int := 4

  /** `setStep(step + 1)` when the guard passes; the step stays otherwise. */
  function StepAfterNext(step: int, guardPasses: bool): int {
    if guardPasses then step + 1 else step
  }

  /** `setStep(step - 1)`. */
  function StepAfterPrev(step: int): int {
    step - 1
  }

  /** "Next Step" is rendered only before the last step. */
  predicate NextOffered(step: int) {
    step < LastStep
  }

  /** "Previous" is disabled on the first step and while submitting. */
  predicate PreviousEnabled(step: int, loading: bool) {
    !(step == FirstStep || loading)
  }

  /** A click on one of the two navigation buttons. */
  datatype Click =
    | ClickNext(guardPasses: bool)  // with the outcome of the current step's guard
    | ClickPrevious(loading: bool)  // with the submitting flag at that moment

  /**
   * The effect of one click, where a button that is not offered or is
   * disabled does nothing; the step moves by at most one and stays in 1..4.
   */
  function AfterClick(step: int, c: Click): (r: int)
    ensures r == step || r == step + 1 || r == step - 1
    ensures c.ClickNext? ==> r == (if NextOffered(step) then StepAfterNext(step, c.guardPasses) else step)
    ensures c.ClickPrevious? ==> r == (if PreviousEnabled(step, c.loading) then StepAfterPrev(step) else step)
    ensures FirstStep <= step <= LastStep ==> FirstStep <= r <= LastStep
  {
    match c
    case ClickNext(ok) => if NextOffered(step) then StepAfterNext(step, ok) else step
    case ClickPrevious(loading) => if PreviousEnabled(step, loading) then StepAfterPrev(step) else step
  }

  function AfterClicks(step: int, clicks: seq<Click>): int
    decreases |clicks|
  {
    if clicks == [] then step else AfterClicks(AfterClick(step, clicks[0]), clicks[1..])
  }

  /** Under the buttons' enabling rules the wizard never leaves steps 1..4. */
  lemma {:induction false} ClicksKeepStepInRange(step: int, clicks: seq<Click>)
    requires FirstStep <= step <= LastStep
    ensures FirstStep <= AfterClicks(step, clicks) <= LastStep
    decreases |clicks|
  {
    if clicks != [] {
      ClicksKeepStepInRange(AfterClick(step, clicks[0]), clicks[1..]);
    }
  }

  // ------------------------------------------------------------ submission

  /** The names of the multipart form fields the wizard can send. */
  datatype FieldName =
    | Title | Description | Category | Language | IsPrivate | Password | Tags | Pdf | EstimatedTime

  /** The value of one multipart form field. */
  datatype FieldValue =
    | Text(text: string)
    | Flag(flag: bool)
    | TagList(tags: seq<string>)
    | Upload(file: Option<PdfFile>)
    | Minutes(minutes: int)

  /** The fields sent with every submission. */
  const AlwaysSubmitted: set<FieldName> :=
    {Title, Description, Category, Language, IsPrivate, Tags, Pdf, EstimatedTime}

  // ------------------------------------------------------------ the wizard

  /** The wizard component's state; each method is one event handler. */
  class CourseForm {
    var title: string
    var description: string
    var category: string
    var language: string
    var isPrivate: bool
    var password: string
    var tags: seq<string>
    var estimatedTime: int
    var pdfFile: Option<PdfFile>
    var step: int
    var tagInput: string

    ghost predicate Valid()
      reads this
    {
      WellFormedTags(tags)
    }

    /** The initial state of the component. */
    constructor ()
      ensures Valid()
      ensures title == "" && description == "" && category == "" && language == "English"
      ensures !isPrivate && password == "" && tags == [] && estimatedTime == 60
      ensures pdfFile == None && step == FirstStep && tagInput == ""
    {
      title, description, category, language := "", "", "", "English";
      isPrivate, password, tags, estimatedTime := false, "", [], 60;
      pdfFile, step, tagInput := None, 1, "";
    }

    method EditTitle(value: string)
      modifies this`title
      ensures title == value
    {
      title := value;
    }

    method EditDescription(value: string)
      modifies this`description
      ensures description == value
    {
      description := value;
    }

    method EditCategory(value: string)
      modifies this`category
      ensures category == value
    {
      category := value;
    }

    method EditLanguage(value: string)
      modifies this`language
      ensures language == value
    {
      language := value;
    }

    method EditTagInput(value: string)
      modifies this`tagInput
      ensures tagInput == value
    {
      tagInput := value;
    }

    method EditPassword(value: string)
      modifies this`password
      ensures password == value
    {
      password := value;
    }

    /** The upload handler: only an accepted file replaces `pdfFile`. */
    method HandleFileChange(files: seq<PdfFile>) returns (verdict: UploadVerdict)
      modifies this`pdfFile
      ensures verdict == CheckUpload(files)
      ensures verdict.Accepted? ==> pdfFile == Some(files[0])
      ensures !verdict.Accepted? ==> pdfFile == old(pdfFile)
    {
      verdict := CheckUpload(files);
      if verdict.Accepted? {
        pdfFile := Some(verdict.file);
      }
    }

    method AddTag()
      requires Valid()
      modifies this`tags, this`tagInput
      ensures Valid()
      ensures TagEditor(tags, tagInput) == AddTagTo(old(TagEditor(tags, tagInput)))
    {
      var e := AddTagTo(TagEditor(tags, tagInput));
      tags, tagInput := e.tags, e.tagInput;
    }

    method RemoveTag(tagToRemove: string)
      requires Valid()
      modifies this`tags
      ensures Valid()
      ensures tags == RemoveTagFrom(old(tags), tagToRemove)
    {
      RemoveTagKeepsWellFormed(tags, tagToRemove);
      tags := RemoveTagFrom(tags, tagToRemove);
    }

    /** The guard of the current step. */
    predicate CanAdvance()
      reads this
    {
      if step == 1 then title != "" && description != "" && category != ""
      else if step == 2 then pdfFile.Some?
      else !(step == 3 && isPrivate && password == "")
    }

    /**
     * "Next Step": the step rises by exactly one when the current step's
     * guard passes and stays put otherwise.
     */
    method HandleNext()
      modifies this`step
      ensures step == StepAfterNext(old(step), old(CanAdvance()))
      ensures old(step) == 1 ==> (step == 2 <==> title != "" && description != "" && category != "")
      ensures old(step) == 2 ==> (step == 3 <==> pdfFile.Some?)
      ensures old(step) == 3 ==> (step == 3 <==> isPrivate && password == "")
      ensures FirstStep <= old(step) < LastStep ==> FirstStep <= step <= LastStep
    {
      if step == 1 {
        if title == "" || description == "" || category == "" {
          return;
        }
      } else if step == 2 {
        if pdfFile.None? {
          return;
        }
      } else if step == 3 && isPrivate && password == "" {
        return;
      }
      step := step + 1;
    }

    /** "Previous". */
    method HandlePrev()
      modifies this`step
      ensures step == StepAfterPrev(old(step))
      ensures FirstStep < old(step) <= LastStep ==> FirstStep <= step <= LastStep
    {
      step := step - 1;
    }

    /** The "private course" checkbox: sets the flag and always clears the password. */
    method TogglePrivate(checked: bool)
      modifies this`isPrivate, this`password
      ensures isPrivate == checked && password == ""
      ensures Password in Submission() <==> checked
    {
      isPrivate, password := checked, "";
    }

    /**
     * The fields of the submitted form: the eight fields of `AlwaysSubmitted`,
     * plus the password exactly when the course is private, each carrying
     * the value the form holds.
     */
    function Submission(): (r: map<FieldName, FieldValue>)
      reads this
      ensures forall n :: n in r <==> n in AlwaysSubmitted || (n == Password && isPrivate)
      ensures Password in r ==> r[Password] == Text(password)
      ensures r[IsPrivate] == Flag(isPrivate) && r[Tags] == TagList(tags) && r[Pdf] == Upload(pdfFile)
      ensures r[Title] == Text(title) && r[Description] == Text(description) && r[Category] == Text(category)
      ensures r[Language] == Text(language) && r[EstimatedTime] == Minutes(estimatedTime)
    {
      var always := map[
        Title := Text(title), Description := Text(description), Category := Text(category),
        Language := Text(language), IsPrivate := Flag(isPrivate), Tags := TagList(tags),
        Pdf := Upload(pdfFile), EstimatedTime := Minutes(estimatedTime)];
      if isPrivate then always[Password := Text(password)] else always
    }
  }
}
