/** The student table: the list of students shown sorted by the column the
    user picked, the header click that picks the column and direction, row
    deletion and the attendance badge colour. */
module StudentTable {
  import opened Types
  import opened Seqs
  import opened Text

  /** `{ key, direction }`: the column and 'asc' or 'desc'. */
  datatype SortConfig = SortConfig(key: string, direction: string)

  /** The value a column sorts by. */
  datatype SortValue = TextValue(text: string) | NumValue(num: int)

  /** The comparator's switch: name and class compare lower-cased,
      attendance and fee amount numerically, any other key by name. */
  function SortValueOf(s: Student, key: string): (v: SortValue)
    ensures key == "class" ==> v == TextValue(Lower(s.className))
    ensures key == "attendance" ==> v == NumValue(s.attendance)
    ensures key == "fee_amount" ==> v == NumValue(s.feeAmount)
    ensures key != "class" && key != "attendance" && key != "fee_amount" ==> v == TextValue(Lower(s.name))
  {
    match key
    case "name" => TextValue(Lower(s.name))
    case "class" => TextValue(Lower(s.className))
    case "attendance" => NumValue(s.attendance)
    case "fee_amount" => NumValue(s.feeAmount)
    case _ => TextValue(Lower(s.name))
  }

  /** `aValue < bValue` for two values of one column. */
  predicate ValueLess(x: SortValue, y: SortValue)
  {
    match (x, y)
    case (TextValue(a), TextValue(b)) => StrLess(a, b)
    case (NumValue(a), NumValue(b)) => a < b
    case _ => false
  }

  lemma ValueLessAsymmetric(x: SortValue, y: SortValue)
    ensures ValueLess(x, y) ==> !ValueLess(y, x)
  {
    if x.TextValue? && y.TextValue? {
      StrLessAsymmetric(x.text, y.text);
    }
  }

  /** The sort comparator: negative when a goes first. */
  function Compare(config: SortConfig, a: Student, b: Student): int
  {
    var va := SortValueOf(a, config.key);
    var vb := SortValueOf(b, config.key);
    if ValueLess(va, vb) then (if config.direction == "asc" then -1 else 1)
    else if ValueLess(vb, va) then (if config.direction == "asc" then 1 else -1)
    else 0
  }

  /** Swapping the arguments negates the comparator. */
  lemma CompareAntisymmetric(config: SortConfig, a: Student, b: Student)
    ensures Compare(config, a, b) == -Compare(config, b, a)
  {
    ValueLessAsymmetric(SortValueOf(a, config.key), SortValueOf(b, config.key));
  }

  /** No element goes before the one preceding it. */
  predicate Ordered(config: SortConfig, s: seq<Student>)
  {
    forall i :: 0 < i < |s| ==> Compare(config, s[i], s[i - 1]) >= 0
  }

  /** Inserting x into a list, after the leading elements that go before
      it and before the rest. */
  function Insert(config: SortConfig, x: Student, sorted: seq<Student>): (r: seq<Student>)
    ensures multiset(r) == multiset(sorted) + multiset{x}
    ensures |r| == |sorted| + 1
    ensures r[0] == x || (|sorted| > 0 && r[0] == sorted[0])
  {
    if |sorted| == 0 then [x]
    else if Compare(config, sorted[0], x) < 0 then
      assert sorted == [sorted[0]] + sorted[1..];
      [sorted[0]] + Insert(config, x, sorted[1..])
    else [x] + sorted
  }

  /** Putting y in front of a sorted list that does not go before it keeps
      the list sorted. */
  lemma ConsOrdered(config: SortConfig, y: Student, s: seq<Student>)
    requires Ordered(config, s)
    requires |s| > 0 ==> Compare(config, s[0], y) >= 0
    ensures Ordered(config, [y] + s)
  {
    var r := [y] + s;
    forall i | 0 < i < |r|
      ensures Compare(config, r[i], r[i - 1]) >= 0
    {
      if i > 1 {
        assert r[i] == s[i - 1] && r[i - 1] == s[i - 2];
      }
    }
  }

  /** The tail of a sorted list is sorted. */
  lemma OrderedTail(config: SortConfig, s: seq<Student>)
    requires Ordered(config, s) && |s| > 0
    ensures Ordered(config, s[1..])
  {
    forall i | 0 < i < |s[1..]|
      ensures Compare(config, s[1..][i], s[1..][i - 1]) >= 0
    {
      assert s[1..][i] == s[i + 1] && s[1..][i - 1] == s[i];
    }
  }

  /** Inserting into a sorted list gives a sorted list. */
  lemma {:induction false} InsertOrdered(config: SortConfig, x: Student, sorted: seq<Student>)
    requires Ordered(config, sorted)
    ensures Ordered(config, Insert(config, x, sorted))
  {
    if |sorted| > 0 {
      if Compare(config, sorted[0], x) < 0 {
        CompareAntisymmetric(config, sorted[0], x);
        OrderedTail(config, sorted);
        InsertOrdered(config, x, sorted[1..]);
        var rest := Insert(config, x, sorted[1..]);
        assert Compare(config, rest[0], sorted[0]) >= 0 by {
          if rest[0] != x {
            assert rest[0] == sorted[1..][0] == sorted[1];
          }
        }
        ConsOrdered(config, sorted[0], rest);
      } else {
        ConsOrdered(config, x, sorted);
      }
    }
  }

  /** `[...students].sort(comparator)`: a sorted copy of the list. Each
      element is inserted before the elements equal to it that came later,
      which is the order a stable sort keeps. */
  function SortedStudents(students: seq<Student>, config: SortConfig): (r: seq<Student>)
    ensures multiset(r) == multiset(students)
    ensures |r| == |students|
    ensures Ordered(config, r)
  {
    if |students| == 0 then []
    else
      assert students == [students[0]] + students[1..];
      InsertOrdered(config, students[0], SortedStudents(students[1..], config));
      Insert(config, students[0], SortedStudents(students[1..], config))
  }

  /** 'asc' gives non-decreasing keys. */
  lemma SortAscending(students: seq<Student>, config: SortConfig)
    requires config.direction == "asc"
    ensures var r := SortedStudents(students, config);
      forall i :: 0 < i < |r| ==> !ValueLess(SortValueOf(r[i], config.key), SortValueOf(r[i - 1], config.key))
  {
  }

  /** Any other direction gives non-increasing keys. */
  lemma SortDescending(students: seq<Student>, config: SortConfig)
    requires config.direction != "asc"
    ensures var r := SortedStudents(students, config);
      forall i :: 0 < i < |r| ==> !ValueLess(SortValueOf(r[i - 1], config.key), SortValueOf(r[i], config.key))
  {
    var r := SortedStudents(students, config);
    forall i | 0 < i < |r|
      ensures !ValueLess(SortValueOf(r[i - 1], config.key), SortValueOf(r[i], config.key))
    {
      ValueLessAsymmetric(SortValueOf(r[i], config.key), SortValueOf(r[i - 1], config.key));
    }
  }

  /** Sorting by attendance ascending orders the attendance figures. */
  lemma SortByAttendance(students: seq<Student>)
    ensures var r := SortedStudents(students, SortConfig("attendance", "asc"));
      forall i :: 0 < i < |r| ==> r[i - 1].attendance <= r[i].attendance
  {
    SortAscending(students, SortConfig("attendance", "asc"));
  }

  /** Sorting by name ascending orders the lower-cased names, ties allowed. */
  lemma SortByName(students: seq<Student>)
    ensures var r := SortedStudents(students, SortConfig("name", "asc"));
      forall i :: 0 < i < |r| ==> Lower(r[i - 1].name) == Lower(r[i].name) || StrLess(Lower(r[i - 1].name), Lower(r[i].name))
  {
    var r := SortedStudents(students, SortConfig("name", "asc"));
    SortAscending(students, SortConfig("name", "asc"));
    forall i | 0 < i < |r|
      ensures Lower(r[i - 1].name) == Lower(r[i].name) || StrLess(Lower(r[i - 1].name), Lower(r[i].name))
    {
      if Lower(r[i - 1].name) != Lower(r[i].name) {
        StrLessTotal(Lower(r[i - 1].name), Lower(r[i].name));
      }
    }
  }

  /** handleSort: clicking the column that is sorted ascending sorts it
      descending; any other click sorts the clicked column ascending. */
  function HandleSort(config: SortConfig, key: string): (r: SortConfig)
    ensures r.key == key
    ensures r.direction == "desc" <==> config.key == key && config.direction == "asc"
    ensures r.direction == "asc" <==> !(config.key == key && config.direction == "asc")
  {
    SortConfig(key, if config.key == key && config.direction == "asc" then "desc" else "asc")
  }

  /** Two clicks on the same header flip the direction twice. */
  lemma HandleSortTwice(config: SortConfig, key: string)
    ensures HandleSort(HandleSort(config, key), key).direction != HandleSort(config, key).direction
  {
  }

  /** `prev.filter(s => s.id !== studentId)`. */
  function StudentDeleted(students: seq<Student>, id: string): (r: seq<Student>)
    ensures Subseq(r, students)
    ensures forall i :: 0 <= i < |r| ==> r[i].id != id
  {
    Filter(students, (s: Student) => s.id != id)
  }

  /** Deletion keeps exactly the students with another id. */
  lemma StudentDeletedMembers(students: seq<Student>, id: string, s: Student)
    ensures s in StudentDeleted(students, id) <==> s in students && s.id != id
  {
    FilterMembers(students, (s: Student) => s.id != id, s);
  }

  /** The attendance badge: green from 90, yellow from 80, red below. */
  function AttendanceColor(attendance: int): (r: string)
    ensures r == "text-green-600 bg-green-100" <==> attendance >= 90
    ensures r == "text-yellow-600 bg-yellow-100" <==> 80 <= attendance < 90
    ensures r == "text-red-600 bg-red-100" <==> attendance < 80
  {
    if attendance >= 90 then "text-green-600 bg-green-100"
    else if attendance >= 80 then "text-yellow-600 bg-yellow-100"
    else "text-red-600 bg-red-100"
  }

  /** The table's state. */
  class StudentTableView {
    var students: seq<Student>
    var error: Option<string>
    var dropdownOpen: Option<string>

    constructor()
      ensures students == [] && error == None && dropdownOpen == None
    {
      students := [];
      error := None;
      dropdownOpen := None;
    }

    /** The rows as displayed: a sorted copy; the state list keeps its order. */
    function Displayed(config: SortConfig): seq<Student>
      reads this
    {
      SortedStudents(students, config)
    }

    /** loadStudents and searchStudents: the fetched rows, or the error with
        the rows kept. */
    method ShowFetched(fetch: Result<seq<Student>>)
      modifies this
      ensures fetch.Ok? ==> students == fetch.value && error == None
      ensures fetch.Err? ==> students == old(students) && error == Some(fetch.message)
      ensures dropdownOpen == old(dropdownOpen)
    {
      error := None;
      if fetch.Err? {
        error := Some(fetch.message);
      } else {
        students := fetch.value;
      }
    }

    /** The search-term effect: search with a term, otherwise load all. */
    method OnSearchTermChange(searchTerm: string, allFetch: Result<seq<Student>>,
                              searchFetch: Result<seq<Student>>)
      modifies this
      ensures var fetch := if searchTerm != "" then searchFetch else allFetch;
        (fetch.Ok? ==> students == fetch.value && error == None) &&
        (fetch.Err? ==> students == old(students) && error == Some(fetch.message))
      ensures dropdownOpen == old(dropdownOpen)
    {
      if searchTerm != "" {
        ShowFetched(searchFetch);
      } else {
        ShowFetched(allFetch);
      }
    }

    /** handleDeleteStudent: nothing unless confirmed; a successful delete
        removes the row and closes the menu; a failed one is alerted. */
    method HandleDeleteStudent(id: string, confirmed: bool, deleted: Result<()>) returns (alert: Option<string>)
      modifies this
      ensures !confirmed ==> alert == None && students == old(students) && dropdownOpen == old(dropdownOpen)
      ensures confirmed && deleted.Ok? ==>
        alert == None && students == StudentDeleted(old(students), id) && dropdownOpen == None
      ensures confirmed && deleted.Err? ==>
        alert == Some(deleted.message) && students == old(students) && dropdownOpen == old(dropdownOpen)
      ensures error == old(error)
    {
      if !confirmed {
        return None;
      }
      if deleted.Err? {
        return Some(deleted.message);
      }
      students := StudentDeleted(students, id);
      dropdownOpen := None;
      return None;
    }
  }
}
