/** The syllabus service: per-subject chapter completion, the overall
    progress of a class, and the distinct subjects and classes. */
module SyllabusService {
  import opened Types
  import opened Numeric
  import opened Seqs

  /** A chapter is completed when it was taught, its end test was held, its
      notes were distributed and it was revised. */
  predicate IsCompleted(c: SyllabusChapter)
  {
    c.physicalClassConducted && c.chapterEndTestStatus &&
    c.notesDistributionStatus == Distributed && c.revisionStatus
  }

  /** calculateSyllabusProgress over the chapters of one class and subject. */
  function SyllabusProgressOf(className: string, subject: string,
                              chapters: seq<SyllabusChapter>): (r: SyllabusProgress)
    ensures r.className == className && r.subject == subject
    ensures r.totalChapters == |chapters|
    ensures r.completedChapters == |Filter(chapters, IsCompleted)|
    ensures 0 <= r.completedChapters <= r.totalChapters
    ensures |chapters| == 0 ==> r.progressPercentage == 0
    ensures |chapters| > 0 ==>
      r.progressPercentage == Round(r.completedChapters as real / r.totalChapters as real * 100.0)
    ensures 0 <= r.progressPercentage <= 100
    ensures |chapters| > 0 && r.completedChapters == r.totalChapters ==> r.progressPercentage == 100
  {
    var total := |chapters|;
    var completed := |Filter(chapters, IsCompleted)|;
    var percent := if total > 0 then
        RoundPercentIsRound(completed, total);
        RoundPercentBounds(completed, total);
        RoundPercent(completed, total)
      else 0;
    SyllabusProgress(className, subject, total, completed, percent)
  }

  /** calculateSyllabusProgress, whose chapter query may throw. */
  function CalculateSyllabusProgress(className: string, subject: string,
                                     chaptersFetch: Result<seq<SyllabusChapter>>): (r: Result<SyllabusProgress>)
    ensures chaptersFetch.Err? ==> r == Err("Failed to fetch syllabus chapters: " + chaptersFetch.message)
    ensures chaptersFetch.Ok? ==> r == Ok(SyllabusProgressOf(className, subject, chaptersFetch.value))
  {
    if chaptersFetch.Err? then Err("Failed to fetch syllabus chapters: " + chaptersFetch.message)
    else Ok(SyllabusProgressOf(className, subject, chaptersFetch.value))
  }

  /** Subject k is the first, in list order, whose chapter query fails. */
  predicate FirstFailing(subjects: seq<string>, chaptersOf: string -> Result<seq<SyllabusChapter>>, k: int)
  {
    0 <= k < |subjects| && chaptersOf(subjects[k]).Err? &&
    forall j :: 0 <= j < k ==> chaptersOf(subjects[j]).Ok?
  }

  /** The percentages of the given subjects, in order; None when some
      subject's chapter query fails. */
  function Percentages(className: string, subjects: seq<string>,
                       chaptersOf: string -> Result<seq<SyllabusChapter>>): Option<seq<int>>
  {
    if |subjects| == 0 then Some([])
    else
      var front := Percentages(className, subjects[..|subjects| - 1], chaptersOf);
      var last := CalculateSyllabusProgress(className, subjects[|subjects| - 1],
                                            chaptersOf(subjects[|subjects| - 1]));
      if front.None? || last.Err? then None
      else Some(front.value + [last.value.progressPercentage])
  }

  /** Every percentage the subjects produce lies in 0..100, one per subject. */
  lemma {:induction false} PercentagesBounds(className: string, subjects: seq<string>,
                                             chaptersOf: string -> Result<seq<SyllabusChapter>>)
    ensures Percentages(className, subjects, chaptersOf).Some? ==>
      |Percentages(className, subjects, chaptersOf).value| == |subjects| &&
      forall i :: 0 <= i < |subjects| ==> 0 <= Percentages(className, subjects, chaptersOf).value[i] <= 100
  {
    if |subjects| > 0 {
      PercentagesBounds(className, subjects[..|subjects| - 1], chaptersOf);
    }
  }

  /** A failure among the first k subjects is a failure of the whole list. */
  lemma {:induction false} PercentagesPrefixFails(className: string, subjects: seq<string>, k: nat,
                                                  chaptersOf: string -> Result<seq<SyllabusChapter>>)
    requires k <= |subjects|
    requires Percentages(className, subjects[..k], chaptersOf).None?
    ensures Percentages(className, subjects, chaptersOf).None?
    decreases |subjects|
  {
    if k == |subjects| {
      assert subjects[..k] == subjects;
    } else {
      var front := subjects[..|subjects| - 1];
      assert front[..k] == subjects[..k];
      PercentagesPrefixFails(className, front, k, chaptersOf);
    }
  }

  /** The loop of calculateOverallSyllabusProgress: the percentages of the
      subjects added up one subject at a time; the first failing subject
      ends the loop with its message. */
  method TotalProgress(className: string, subjects: seq<string>,
                       chaptersOf: string -> Result<seq<SyllabusChapter>>)
    returns (r: Result<int>)
    ensures Percentages(className, subjects, chaptersOf).Some? ==>
      r == Ok(Sum(Percentages(className, subjects, chaptersOf).value))
    ensures Percentages(className, subjects, chaptersOf).None? ==>
      exists k :: (FirstFailing(subjects, chaptersOf, k) &&
                   r == Err("Failed to fetch syllabus chapters: " + chaptersOf(subjects[k]).message))
  {
    var totalProgress := 0;
    ghost var percents: seq<int> := [];
    for i := 0 to |subjects|
      invariant |percents| == i
      invariant Percentages(className, subjects[..i], chaptersOf) == Some(percents)
      invariant totalProgress == Sum(percents)
      invariant forall j :: 0 <= j < i ==> chaptersOf(subjects[j]).Ok?
    {
      var progress := CalculateSyllabusProgress(className, subjects[i], chaptersOf(subjects[i]));
      assert subjects[..i + 1][..i] == subjects[..i];
      assert subjects[..i + 1][i] == subjects[i];
      if progress.Err? {
        PercentagesPrefixFails(className, subjects, i + 1, chaptersOf);
        assert FirstFailing(subjects, chaptersOf, i);
        return Err(progress.message);
      }
      var p := progress.value.progressPercentage;
      assert (percents + [p])[..i] == percents;
      totalProgress := totalProgress + p;
      percents := percents + [p];
    }
    assert subjects[..|subjects|] == subjects;
    r := Ok(totalProgress);
  }

  /** calculateOverallSyllabusProgress: the subjects of the class, then the
      rounded mean of their percentages accumulated in a loop. A failing
      query throws; the first failing subject's message is reported. */
  method CalculateOverallSyllabusProgress(className: string, subjectsFetch: Result<seq<string>>,
                                          chaptersOf: string -> Result<seq<SyllabusChapter>>)
    returns (r: Result<int>)
    ensures subjectsFetch.Err? ==> r == Err("Failed to fetch subjects: " + subjectsFetch.message)
    ensures subjectsFetch.Ok? && Percentages(className, Distinct(subjectsFetch.value), chaptersOf).None? ==>
      exists k :: (FirstFailing(Distinct(subjectsFetch.value), chaptersOf, k) &&
                   r == Err("Failed to fetch syllabus chapters: " + chaptersOf(Distinct(subjectsFetch.value)[k]).message))
    ensures subjectsFetch.Ok? && Percentages(className, Distinct(subjectsFetch.value), chaptersOf).Some? ==>
      r == Ok(RoundedMean(Percentages(className, Distinct(subjectsFetch.value), chaptersOf).value))
    ensures subjectsFetch.Ok? && |subjectsFetch.value| == 0 ==> r == Ok(0)
    ensures r.Ok? ==> 0 <= r.value <= 100
  {
    var subjectsList := GetAvailableSubjects(subjectsFetch);
    if subjectsList.Err? {
      return Err(subjectsList.message);
    }
    var subjects := subjectsList.value;
    if |subjects| == 0 {
      return Ok(0);
    }
    var total := TotalProgress(className, subjects, chaptersOf);
    if total.Err? {
      return total;
    }
    ghost var percents := Percentages(className, subjects, chaptersOf);
    assert percents.Some?;
    PercentagesBounds(className, subjects, chaptersOf);
    assert RoundedMean(percents.value) == RoundDiv(total.value, |subjects|);
    OverallProgressBounds(className, subjects, chaptersOf);
    r := Ok(RoundDiv(total.value, |subjects|));
  }

  /** The overall progress of a class lies in 0..100. */
  lemma OverallProgressBounds(className: string, subjects: seq<string>,
                              chaptersOf: string -> Result<seq<SyllabusChapter>>)
    requires Percentages(className, subjects, chaptersOf).Some?
    ensures 0 <= RoundedMean(Percentages(className, subjects, chaptersOf).value) <= 100
  {
    PercentagesBounds(className, subjects, chaptersOf);
    if |subjects| > 0 {
      RoundedMeanBounds(Percentages(className, subjects, chaptersOf).value, 0, 100);
    }
  }

  /** getAvailableSubjects: the distinct subjects of a class. */
  function GetAvailableSubjects(subjectsFetch: Result<seq<string>>): (r: Result<seq<string>>)
    ensures subjectsFetch.Err? ==> r == Err("Failed to fetch subjects: " + subjectsFetch.message)
    ensures subjectsFetch.Ok? ==> r == Ok(Distinct(subjectsFetch.value))
    ensures subjectsFetch.Ok? ==> (forall x :: x in r.value <==> x in subjectsFetch.value) && NoDups(r.value)
  {
    if subjectsFetch.Err? then Err("Failed to fetch subjects: " + subjectsFetch.message)
    else Ok(Distinct(subjectsFetch.value))
  }

  /** getAvailableClasses: the distinct classes that have syllabus rows. */
  function GetAvailableClasses(classesFetch: Result<seq<string>>): (r: Result<seq<string>>)
    ensures classesFetch.Err? ==> r == Err("Failed to fetch classes: " + classesFetch.message)
    ensures classesFetch.Ok? ==> r == Ok(Distinct(classesFetch.value))
    ensures classesFetch.Ok? ==> (forall x :: x in r.value <==> x in classesFetch.value) && NoDups(r.value)
  {
    if classesFetch.Err? then Err("Failed to fetch classes: " + classesFetch.message)
    else Ok(Distinct(classesFetch.value))
  }
}
