/** The students page's summary cards: how many students there are, how
    many are active, how many enrolled this month, and their mean
    attendance. */
module StudentManagement {
  import opened Types
  import opened Numeric
  import opened Seqs

  datatype StudentStats = StudentStats(total: int, active: int, newThisMonth: int, avgAttendance: real)

  /** A student whose fee status is anything but 'not started'. */
  predicate IsActive(s: Student)
  {
    s.feeStatus != NotStarted
  }

  /** The attendance figures, as numbers. */
  function Attendances(students: seq<Student>): (r: seq<real>)
    ensures |r| == |students|
    ensures forall i :: 0 <= i < |r| ==> r[i] == students[i].attendance as real
  {
    seq(|students|, i requires 0 <= i < |students| => students[i].attendance as real)
  }

  /** loadStats. The calendar month and year of an enrollment date, as the
      browser's Date reads them, come in as `enrolledIn`; the current month
      (0..11) and year come from the clock. */
  function LoadStats(students: seq<Student>, currentMonth: int, currentYear: int,
                     enrolledIn: string -> (int, int)): (r: StudentStats)
    ensures r.total == |students|
    ensures r.active == |Filter(students, IsActive)| && 0 <= r.active <= r.total
    ensures r.newThisMonth ==
      |Filter(students, (s: Student) => enrolledIn(s.enrollmentDate) == (currentMonth, currentYear))|
    ensures 0 <= r.newThisMonth <= r.total
    ensures |students| == 0 ==> r.avgAttendance == 0.0
    ensures OneDecimal(r.avgAttendance)
    ensures |students| > 0 ==> r.avgAttendance - 0.05 <= Mean(Attendances(students)) < r.avgAttendance + 0.05
    ensures (forall i :: 0 <= i < |students| ==> 0 <= students[i].attendance <= 100) ==>
      0.0 <= r.avgAttendance <= 100.0
  {
    var active := Filter(students, IsActive);
    var joined := Filter(students, (s: Student) => enrolledIn(s.enrollmentDate) == (currentMonth, currentYear));
    var avg := Mean(Attendances(students));
    if |students| > 0 && forall i :: 0 <= i < |students| ==> 0 <= students[i].attendance <= 100 then
      MeanBounds(Attendances(students), 0.0, 100.0);
      Round1Bounds(avg, 0, 100);
      StudentStats(|students|, |active|, |joined|, Round1(avg))
    else
      assert |students| == 0 ==> Round1(0.0) == 0.0 by { RoundInt(0); }
      StudentStats(|students|, |active|, |joined|, Round1(avg))
  }

  /** The students who are not active are exactly those not yet started:
      active and not-started students together make the total. */
  lemma ActivePartition(students: seq<Student>)
    ensures |Filter(students, IsActive)| + |Reject(students, IsActive)| == |students|
    ensures forall i :: 0 <= i < |Reject(students, IsActive)| ==> Reject(students, IsActive)[i].feeStatus == NotStarted
  {
    FilterPartition(students, IsActive);
  }

  /** The page's state. */
  class StudentsPage {
    var stats: StudentStats
    var refreshTrigger: int

    constructor()
      ensures stats == StudentStats(0, 0, 0, 0.0) && refreshTrigger == 0
    {
      stats := StudentStats(0, 0, 0, 0.0);
      refreshTrigger := 0;
    }

    /** The figures of the fetched students; a failed fetch is only logged. */
    method ReloadStats(fetch: Result<seq<Student>>, currentMonth: int, currentYear: int,
                       enrolledIn: string -> (int, int))
      modifies this
      ensures fetch.Ok? ==> stats == LoadStats(fetch.value, currentMonth, currentYear, enrolledIn)
      ensures fetch.Err? ==> stats == old(stats)
      ensures refreshTrigger == old(refreshTrigger)
    {
      if fetch.Ok? {
        stats := LoadStats(fetch.value, currentMonth, currentYear, enrolledIn);
      }
    }

    /** handleStudentAdded: the counter that reloads the figures goes up by one. */
    method HandleStudentAdded()
      modifies this
      ensures refreshTrigger == old(refreshTrigger) + 1 && stats == old(stats)
    {
      refreshTrigger := refreshTrigger + 1;
    }
  }
}
