/** The syllabus coverage page of one class and subject: the chapter list
    with its search and status filter, the completion summary, inline
    status edits, deletion and the add-chapter form. */
module SyllabusCoverageView {
  import opened Types
  import opened Numeric
  import opened Seqs
  import opened Text
  import SyllabusService

  /** The add-chapter form (CreateSyllabusChapterData). */
  datatype ChapterDraft = ChapterDraft(
    className: string,
    subject: string,
    chapterName: string,
    physicalClassConducted: bool,
    chapterEndTestStatus: bool,
    notesDistributionStatus: NotesStatus,
    revisionStatus: bool)

  /** The form as it is opened and as it is reset after an add. */
  function EmptyDraft(className: string, subject: string): (d: ChapterDraft)
    ensures d.className == className && d.subject == subject && d.chapterName == ""
    ensures !d.physicalClassConducted && !d.chapterEndTestStatus && !d.revisionStatus
    ensures d.notesDistributionStatus == Undistributed
  {
    ChapterDraft(className, subject, "", false, false, Undistributed, false)
  }

  /** The row created from the form: the page's class and subject override
      the form's, the backend supplies the id and timestamps. */
  function CreatedChapter(d: ChapterDraft, className: string, subject: string,
                          id: string, createdAt: string): (c: SyllabusChapter)
    ensures c.id == id && c.className == className && c.subject == subject
    ensures c.chapterName == d.chapterName
  {
    SyllabusChapter(id, className, subject, d.chapterName, d.physicalClassConducted,
                    d.chapterEndTestStatus, d.notesDistributionStatus, d.revisionStatus,
                    createdAt, createdAt)
  }

  /** The form only edits the chapter name, so every chapter added through
      it starts out pending. */
  lemma NewChapterIsPending(className: string, subject: string, name: string, id: string, createdAt: string)
    ensures !SyllabusService.IsCompleted(
      CreatedChapter(EmptyDraft(className, subject).(chapterName := name), className, subject, id, createdAt))
  {
  }

  /** The add button is disabled while the trimmed name is empty, that is
      while the name is all white space. */
  function AddDisabled(d: ChapterDraft): (r: bool)
    ensures r <==> AllSpace(d.chapterName)
  {
    TrimEmptyIffAllSpace(d.chapterName);
    Trim(d.chapterName) == ""
  }

  /** The status filter of the list. */
  datatype FilterStatus = All | CompletedOnly | PendingOnly

  /** The filter of the list: the name contains the search term ignoring
      case, and the completion matches the status filter. */
  predicate Keep(term: string, status: FilterStatus, c: SyllabusChapter)
  {
    var matchesSearch := IncludesIgnoreCase(c.chapterName, term);
    match status
    case CompletedOnly => matchesSearch && SyllabusService.IsCompleted(c)
    case PendingOnly => matchesSearch && !SyllabusService.IsCompleted(c)
    case All => matchesSearch
  }

  /** filteredChapters: the kept chapters in list order. */
  function FilteredChapters(chapters: seq<SyllabusChapter>, term: string, status: FilterStatus): (r: seq<SyllabusChapter>)
    ensures |r| <= |chapters|
    ensures Subseq(r, chapters)
    ensures forall i :: 0 <= i < |r| ==> Keep(term, status, r[i])
  {
    Filter(chapters, c => Keep(term, status, c))
  }

  /** A chapter is listed exactly when it is in the list and is kept. */
  lemma FilteredMembers(chapters: seq<SyllabusChapter>, term: string, status: FilterStatus, c: SyllabusChapter)
    ensures c in FilteredChapters(chapters, term, status) <==> c in chapters && Keep(term, status, c)
  {
    FilterMembers(chapters, c => Keep(term, status, c), c);
  }

  /** With an empty search term and no status filter every chapter is listed. */
  lemma EmptySearchListsAll(chapters: seq<SyllabusChapter>)
    ensures FilteredChapters(chapters, "", All) == chapters
  {
    forall i | 0 <= i < |chapters|
      ensures Keep("", All, chapters[i])
    {
      IncludesEmpty(Lower(chapters[i].chapterName));
    }
    FilterAll(chapters, c => Keep("", All, c));
  }

  /** The completed and the pending lists have no chapter in common and
      together hold the chapters of the unfiltered list. */
  lemma {:induction false} StatusFiltersPartition(chapters: seq<SyllabusChapter>, term: string)
    ensures forall i, j ::
      (0 <= i < |FilteredChapters(chapters, term, CompletedOnly)| &&
       0 <= j < |FilteredChapters(chapters, term, PendingOnly)|) ==>
      FilteredChapters(chapters, term, CompletedOnly)[i] != FilteredChapters(chapters, term, PendingOnly)[j]
    ensures multiset(FilteredChapters(chapters, term, CompletedOnly)) +
      multiset(FilteredChapters(chapters, term, PendingOnly)) == multiset(FilteredChapters(chapters, term, All))
    ensures |FilteredChapters(chapters, term, CompletedOnly)| + |FilteredChapters(chapters, term, PendingOnly)| ==
      |FilteredChapters(chapters, term, All)|
  {
    if |chapters| > 0 {
      StatusFiltersPartition(chapters[1..], term);
    }
  }

  /** The completion summary of the page. */
  datatype CompletionStats = CompletionStats(total: int, completed: int, percentage: int)

  /** getCompletionStats: 0% with no chapters, otherwise the rounded share
      of completed chapters. */
  function GetCompletionStats(chapters: seq<SyllabusChapter>): (r: CompletionStats)
    ensures r.total == |chapters|
    ensures r.completed == |Filter(chapters, SyllabusService.IsCompleted)| <= r.total
    ensures r.total == 0 ==> r.percentage == 0
    ensures r.total > 0 ==> r.percentage == Round(r.completed as real / r.total as real * 100.0)
    ensures 0 <= r.percentage <= 100
  {
    var total := |chapters|;
    var completed := |Filter(chapters, SyllabusService.IsCompleted)|;
    if total > 0 then
      RoundPercentIsRound(completed, total);
      RoundPercentBounds(completed, total);
      CompletionStats(total, completed, RoundPercent(completed, total))
    else CompletionStats(0, completed, 0)
  }

  /** The page's summary agrees with the service's progress of the same
      chapters. */
  lemma CompletionAgreesWithService(className: string, subject: string, chapters: seq<SyllabusChapter>)
    ensures GetCompletionStats(chapters).percentage ==
      SyllabusService.SyllabusProgressOf(className, subject, chapters).progressPercentage
    ensures GetCompletionStats(chapters).completed ==
      SyllabusService.SyllabusProgressOf(className, subject, chapters).completedChapters
  {
  }

  /** The status columns handleUpdateChapter is called with. */
  datatype ChapterField =
    | PhysicalClass(conducted: bool)
    | EndTest(held: bool)
    | Notes(notes: NotesStatus)
    | Revision(revised: bool)

  /** `{ ...chapter, [field]: value }` */
  function WithField(c: SyllabusChapter, f: ChapterField): (r: SyllabusChapter)
    ensures r.id == c.id && r.className == c.className && r.subject == c.subject
    ensures r.chapterName == c.chapterName
    ensures r.physicalClassConducted == (if f.PhysicalClass? then f.conducted else c.physicalClassConducted)
    ensures r.chapterEndTestStatus == (if f.EndTest? then f.held else c.chapterEndTestStatus)
    ensures r.notesDistributionStatus == (if f.Notes? then f.notes else c.notesDistributionStatus)
    ensures r.revisionStatus == (if f.Revision? then f.revised else c.revisionStatus)
    ensures r.createdAt == c.createdAt && r.updatedAt == c.updatedAt
  {
    match f
    case PhysicalClass(b) => c.(physicalClassConducted := b)
    case EndTest(b) => c.(chapterEndTestStatus := b)
    case Notes(n) => c.(notesDistributionStatus := n)
    case Revision(b) => c.(revisionStatus := b)
  }

  /** The local update after a saved edit: the chapters with the id get
      the field, every other chapter is left as it was. */
  function ChapterUpdated(chapters: seq<SyllabusChapter>, id: string, f: ChapterField): (r: seq<SyllabusChapter>)
    ensures |r| == |chapters|
    ensures forall i :: 0 <= i < |r| && chapters[i].id == id ==> r[i] == WithField(chapters[i], f)
    ensures forall i :: 0 <= i < |r| && chapters[i].id != id ==> r[i] == chapters[i]
  {
    seq(|chapters|, i requires 0 <= i < |chapters| =>
      if chapters[i].id == id then WithField(chapters[i], f) else chapters[i])
  }

  /** Marking all four steps done on a chapter completes it. */
  lemma AllStepsComplete(chapters: seq<SyllabusChapter>, id: string, i: int)
    requires 0 <= i < |chapters| && chapters[i].id == id
    ensures var done := ChapterUpdated(ChapterUpdated(ChapterUpdated(ChapterUpdated(chapters,
      id, PhysicalClass(true)), id, EndTest(true)), id, Notes(Distributed)), id, Revision(true));
      SyllabusService.IsCompleted(done[i])
  {
  }

  /** The local update after a deletion: the chapters with the id are gone,
      the others stay in order. */
  function ChapterDeleted(chapters: seq<SyllabusChapter>, id: string): (r: seq<SyllabusChapter>)
    ensures Subseq(r, chapters)
    ensures forall i :: 0 <= i < |r| ==> r[i].id != id
  {
    Filter(chapters, (c: SyllabusChapter) => c.id != id)
  }

  /** Deletion keeps exactly the chapters with another id. */
  lemma ChapterDeletedMembers(chapters: seq<SyllabusChapter>, id: string, c: SyllabusChapter)
    ensures c in ChapterDeleted(chapters, id) <==> c in chapters && c.id != id
  {
    FilterMembers(chapters, (c: SyllabusChapter) => c.id != id, c);
  }

  /** The page's state. */
  class SyllabusCoveragePage {
    var chapters: seq<SyllabusChapter>
    var error: Option<string>
    var success: Option<string>
    var isAddingChapter: bool
    var newChapter: ChapterDraft
    var searchTerm: string
    var filterStatus: FilterStatus

    constructor(selectedClass: string, selectedSubject: string)
      ensures chapters == [] && error == None && success == None && !isAddingChapter
      ensures newChapter == EmptyDraft(selectedClass, selectedSubject)
      ensures searchTerm == "" && filterStatus == All
    {
      chapters := [];
      error := None;
      success := None;
      isAddingChapter := false;
      newChapter := EmptyDraft(selectedClass, selectedSubject);
      searchTerm := "";
      filterStatus := All;
    }

    /** The list as displayed. */
    function Displayed(): seq<SyllabusChapter>
      reads this
    {
      FilteredChapters(chapters, searchTerm, filterStatus)
    }

    /** loadChapters: nothing without a subject; otherwise the fetched
        chapters, or the error with the list kept. */
    method LoadChapters(selectedSubject: string, fetch: Result<seq<SyllabusChapter>>)
      modifies this
      ensures selectedSubject == "" ==> chapters == old(chapters) && error == old(error)
      ensures selectedSubject != "" && fetch.Ok? ==> chapters == fetch.value && error == None
      ensures selectedSubject != "" && fetch.Err? ==> chapters == old(chapters) && error == Some(fetch.message)
      ensures success == old(success) && isAddingChapter == old(isAddingChapter) && newChapter == old(newChapter)
      ensures searchTerm == old(searchTerm) && filterStatus == old(filterStatus)
    {
      if selectedSubject == "" {
        return;
      }
      error := None;
      if fetch.Err? {
        error := Some(fetch.message);
      } else {
        chapters := fetch.value;
      }
    }

    /** handleAddChapter: after a successful create the form is closed and
        reset and the list reloaded; a failed create shows its error. */
    method HandleAddChapter(selectedClass: string, selectedSubject: string,
                            created: Result<()>, reload: Result<seq<SyllabusChapter>>)
      modifies this
      ensures created.Err? ==>
        (error == Some(created.message) && chapters == old(chapters) &&
         newChapter == old(newChapter) && isAddingChapter == old(isAddingChapter) && success == old(success))
      ensures created.Ok? ==>
        (success == Some("Chapter added successfully!") && !isAddingChapter &&
         newChapter == EmptyDraft(selectedClass, selectedSubject))
      ensures created.Ok? && selectedSubject != "" && reload.Ok? ==> chapters == reload.value && error == None
      ensures created.Ok? && selectedSubject != "" && reload.Err? ==> chapters == old(chapters) && error == Some(reload.message)
      ensures created.Ok? && selectedSubject == "" ==> chapters == old(chapters) && error == None
      ensures searchTerm == old(searchTerm) && filterStatus == old(filterStatus)
    {
      error := None;
      if created.Err? {
        error := Some(created.message);
        return;
      }
      success := Some("Chapter added successfully!");
      isAddingChapter := false;
      newChapter := EmptyDraft(selectedClass, selectedSubject);
      LoadChapters(selectedSubject, reload);
    }

    /** handleUpdateChapter: the saved edit is applied to the local list; a
        failed save shows its error and changes nothing else. */
    method HandleUpdateChapter(id: string, f: ChapterField, saved: Result<()>)
      modifies this
      ensures saved.Ok? ==> chapters == ChapterUpdated(old(chapters), id, f) && error == None
      ensures saved.Err? ==> chapters == old(chapters) && error == Some(saved.message)
      ensures success == old(success) && isAddingChapter == old(isAddingChapter) && newChapter == old(newChapter)
      ensures searchTerm == old(searchTerm) && filterStatus == old(filterStatus)
    {
      error := None;
      if saved.Err? {
        error := Some(saved.message);
        return;
      }
      chapters := ChapterUpdated(chapters, id, f);
    }

    /** handleDeleteChapter: nothing unless confirmed; a successful delete
        removes the chapter locally and shows the banner. */
    method HandleDeleteChapter(id: string, confirmed: bool, deleted: Result<()>)
      modifies this
      ensures !confirmed ==> chapters == old(chapters) && error == old(error) && success == old(success)
      ensures confirmed && deleted.Ok? ==>
        chapters == ChapterDeleted(old(chapters), id) && error == None && success == Some("Chapter deleted successfully!")
      ensures confirmed && deleted.Err? ==>
        chapters == old(chapters) && error == Some(deleted.message) && success == old(success)
      ensures isAddingChapter == old(isAddingChapter) && newChapter == old(newChapter)
      ensures searchTerm == old(searchTerm) && filterStatus == old(filterStatus)
    {
      if !confirmed {
        return;
      }
      error := None;
      if deleted.Err? {
        error := Some(deleted.message);
        return;
      }
      chapters := ChapterDeleted(chapters, id);
      success := Some("Chapter deleted successfully!");
    }
  }
}
