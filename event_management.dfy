/** The event calendar: the month grid with up to two events per day, the
    colour of an event type, the event form, and the notification dialog
    that picks its recipients by class or by student. */
module EventManagement {
  import opened Types
  import opened Seqs
  import opened Text

  // ---------------------------------------------------------------------------
  // Recipients of a notification

  datatype NotificationMode = ByClasses | ByStudents

  /** The students the notification goes to, in list order: those of a
      selected class, or those whose id is selected. */
  function Recipients(students: seq<Student>, mode: NotificationMode,
                      selectedClasses: seq<string>, selectedStudents: seq<string>): (r: seq<Student>)
    ensures Subseq(r, students)
    ensures mode == ByClasses ==> forall i :: 0 <= i < |r| ==> r[i].className in selectedClasses
    ensures mode == ByStudents ==> forall i :: 0 <= i < |r| ==> r[i].id in selectedStudents
  {
    match mode
    case ByClasses => Filter(students, (s: Student) => s.className in selectedClasses)
    case ByStudents => Filter(students, (s: Student) => s.id in selectedStudents)
  }

  /** A student is a recipient exactly when the active selection names it. */
  lemma RecipientsMembers(students: seq<Student>, mode: NotificationMode,
                          selectedClasses: seq<string>, selectedStudents: seq<string>, s: Student)
    ensures s in Recipients(students, mode, selectedClasses, selectedStudents) <==>
      s in students && (if mode == ByClasses then s.className in selectedClasses else s.id in selectedStudents)
  {
    match mode
    case ByClasses => FilterMembers(students, (s: Student) => s.className in selectedClasses, s);
    case ByStudents => FilterMembers(students, (s: Student) => s.id in selectedStudents, s);
  }

  /** The send button's disabled rule. */
  predicate SendDisabled(sending: bool, mode: NotificationMode,
                         selectedClasses: seq<string>, selectedStudents: seq<string>)
  {
    sending || (if mode == ByClasses then |selectedClasses| == 0 else |selectedStudents| == 0)
  }

  /** With the button disabled for lack of a selection there is no
      recipient; an enabled button can still find none (a selected class
      without students), which is why the handler checks again. */
  lemma SendDisabledNoRecipients(students: seq<Student>, mode: NotificationMode,
                                 selectedClasses: seq<string>, selectedStudents: seq<string>)
    requires (if mode == ByClasses then |selectedClasses| == 0 else |selectedStudents| == 0)
    ensures SendDisabled(false, mode, selectedClasses, selectedStudents)
    ensures Recipients(students, mode, selectedClasses, selectedStudents) == []
  {
  }

  /** The notice of a successful send. */
  function SentNotice(count: nat): string
  {
    "Notification sent successfully to " + NatToString(count) + " recipient(s)!"
  }

  const NoRecipientsError: string := "Please select at least one class or student to send notifications"

  // ---------------------------------------------------------------------------
  // Check boxes

  /** Ticking a box appends the value. */
  function Checked(selected: seq<string>, v: string): (r: seq<string>)
    ensures v in r && |r| == |selected| + 1 && r[..|selected|] == selected
  {
    selected + [v]
  }

  /** Unticking a box removes every occurrence of the value. */
  function Unchecked(selected: seq<string>, v: string): (r: seq<string>)
    ensures v !in r
    ensures forall x :: x != v ==> (x in r <==> x in selected)
  {
    Without(selected, v)
  }

  lemma {:induction false} WithoutAppend(a: seq<string>, b: seq<string>, v: string)
    ensures Without(a + b, v) == Without(a, v) + Without(b, v)
  {
    if |a| > 0 {
      assert (a + b)[1..] == a[1..] + b;
      WithoutAppend(a[1..], b, v);
    } else {
      assert a + b == b;
    }
  }

  /** Ticking and then unticking a box leaves the selection as unticking alone. */
  lemma CheckThenUncheck(selected: seq<string>, v: string)
    ensures Unchecked(Checked(selected, v), v) == Unchecked(selected, v)
  {
    WithoutAppend(selected, [v], v);
    assert Without([v], v) == [];
  }

  // ---------------------------------------------------------------------------
  // Classes of the class picker

  /** Inserting a value that is not in a strictly increasing list keeps it
      strictly increasing. */
  predicate StrictlySorted(s: seq<string>)
  {
    forall i :: 0 < i < |s| ==> StrLess(s[i - 1], s[i])
  }

  function InsertSorted(x: string, s: seq<string>): (r: seq<string>)
    requires x !in s
    ensures multiset(r) == multiset(s) + multiset{x}
    ensures |r| == |s| + 1
    ensures r[0] == x || (|s| > 0 && r[0] == s[0])
    ensures StrictlySorted(s) ==> StrictlySorted(r)
  {
    if |s| == 0 then [x]
    else if StrLess(s[0], x) then
      assert s == [s[0]] + s[1..];
      var rest := InsertSorted(x, s[1..]);
      [s[0]] + rest
    else
      StrLessTotal(x, s[0]);
      [x] + s
  }

  /** The default `sort()` of a list without repeats. */
  function SortStrings(s: seq<string>): (r: seq<string>)
    requires NoDups(s)
    ensures multiset(r) == multiset(s)
    ensures |r| == |s|
    ensures StrictlySorted(r)
  {
    if |s| == 0 then []
    else
      assert s == [s[0]] + s[1..];
      var rest := SortStrings(s[1..]);
      assert s[0] !in multiset(rest);
      InsertSorted(s[0], rest)
  }

  function ClassesOf(students: seq<Student>): (r: seq<string>)
    ensures |r| == |students|
    ensures forall i :: 0 <= i < |r| ==> r[i] == students[i].className
  {
    seq(|students|, i requires 0 <= i < |students| => students[i].className)
  }

  /** getUniqueClasses: the students' classes, each once, in string order. */
  function UniqueClasses(students: seq<Student>): (r: seq<string>)
    ensures forall c :: c in r <==> c in ClassesOf(students)
    ensures StrictlySorted(r)
    ensures NoDups(r)
  {
    var d := Distinct(ClassesOf(students));
    var r := SortStrings(d);
    forall c
      ensures c in r <==> c in d
    {
      assert c in r <==> c in multiset(r);
      assert c in d <==> c in multiset(d);
    }
    StrictlySortedNoDups(r);
    r
  }

  /** A strictly increasing list has no repeats. */
  lemma StrictlySortedNoDups(s: seq<string>)
    requires StrictlySorted(s)
    ensures NoDups(s)
  {
    forall i, j | 0 <= i < j < |s|
      ensures s[i] != s[j]
    {
      StrictlySortedSpan(s, i, j);
      StrLessAsymmetric(s[i], s[j]);
    }
  }

  lemma {:induction false} StrictlySortedSpan(s: seq<string>, i: int, j: int)
    requires StrictlySorted(s) && 0 <= i < j < |s|
    ensures StrLess(s[i], s[j])
    decreases j - i
  {
    if j > i + 1 {
      StrictlySortedSpan(s, i, j - 1);
      StrLessTransitive(s[i], s[j - 1], s[j]);
    }
  }

  // ---------------------------------------------------------------------------
  // Event type colours

  /** getEventTypeColor: the colour of each known type, and the 'Other'
      colour for any other string. */
  function EventTypeColor(eventType: string): (r: string)
    ensures eventType == "PTM" ==> r == "bg-yellow-200 text-yellow-800"
    ensures eventType == "Exam" ==> r == "bg-blue-200 text-blue-800"
    ensures eventType == "Holiday" ==> r == "bg-red-200 text-red-800"
    ensures eventType == "Meeting" ==> r == "bg-green-200 text-green-800"
    ensures eventType == "Workshop" ==> r == "bg-purple-200 text-purple-800"
    ensures eventType == "Sports" ==> r == "bg-orange-200 text-orange-800"
    ensures eventType == "Cultural" ==> r == "bg-pink-200 text-pink-800"
    ensures eventType !in KnownEventTypes ==> r == "bg-gray-200 text-gray-800"
  {
    match eventType
    case "PTM" => "bg-yellow-200 text-yellow-800"
    case "Exam" => "bg-blue-200 text-blue-800"
    case "Holiday" => "bg-red-200 text-red-800"
    case "Meeting" => "bg-green-200 text-green-800"
    case "Workshop" => "bg-purple-200 text-purple-800"
    case "Sports" => "bg-orange-200 text-orange-800"
    case "Cultural" => "bg-pink-200 text-pink-800"
    case _ => "bg-gray-200 text-gray-800"
  }

  const KnownEventTypes: seq<string> := ["PTM", "Exam", "Holiday", "Meeting", "Workshop", "Sports", "Cultural"]

  /** The 'Other' type has the fallback colour, and no known type shares it. */
  lemma OtherColorIsFallback(eventType: string)
    ensures EventTypeColor("Other") == "bg-gray-200 text-gray-800"
    ensures EventTypeColor(eventType) == "bg-gray-200 text-gray-800" <==> eventType !in KnownEventTypes
  {
  }

  // ---------------------------------------------------------------------------
  // The month grid

  /** The events on a given date. */
  function DayEvents(events: seq<Event>, key: string): (r: seq<Event>)
    ensures Subseq(r, events)
    ensures forall i :: 0 <= i < |r| ==> r[i].eventDate == key
  {
    Filter(events, (e: Event) => e.eventDate == key)
  }

  /** A cell of the grid: a blank before the first day, or a day with the
      events it shows and the count behind "+N more". */
  datatype CalendarCell =
    | Blank
    | Day(day: int, key: string, shown: seq<Event>, more: Option<int>)

  /** The cell of a day: its first two events, and "+N more" when there are
      more than two. */
  function DayCell(events: seq<Event>, year: int, month0: int, day: int): (c: CalendarCell)
    ensures c.Day? && c.day == day && c.key == DateKey(year, month0, day)
    ensures var all := DayEvents(events, c.key);
      |c.shown| <= 2 && |c.shown| <= |all| && c.shown == all[..|c.shown|] &&
      (|all| <= 2 ==> c.shown == all && c.more == None) &&
      (|all| > 2 ==> |c.shown| == 2 && c.more == Some(|all| - 2))
  {
    var key := DateKey(year, month0, day);
    var all := DayEvents(events, key);
    var n := if |all| < 2 then |all| else 2;
    Day(day, key, all[..n], if |all| > 2 then Some(|all| - 2) else None)
  }

  /** What a cell accounts for: its shown events plus its "+N more". */
  function Accounted(c: CalendarCell): int
  {
    if c.Blank? then 0 else |c.shown| + (if c.more.Some? then c.more.value else 0)
  }

  /** A day's cell accounts for every event on its date. */
  lemma DayCellAccountsAll(events: seq<Event>, year: int, month0: int, day: int)
    ensures Accounted(DayCell(events, year, month0, day)) == |DayEvents(events, DateKey(year, month0, day))|
  {
  }

  /** renderCalendar: `firstDay` blanks, then one cell per day of the month.
      The student profile's calendar has the same layout, but its cells are
      attendance buttons (StudentProfile.RenderCalendar), so each page keeps
      its own loop over its own cell type. */
  method RenderCalendar(year: int, month0: int, firstDay: nat, daysInMonth: nat, events: seq<Event>)
    returns (cells: seq<CalendarCell>)
    ensures |cells| == firstDay + daysInMonth
    ensures forall i :: 0 <= i < firstDay ==> cells[i] == Blank
    ensures forall k :: firstDay <= k < |cells| ==> cells[k] == DayCell(events, year, month0, k - firstDay + 1)
  {
    cells := [];
    var i := 0;
    while i < firstDay
      invariant 0 <= i <= firstDay && |cells| == i
      invariant forall k :: 0 <= k < i ==> cells[k] == Blank
    {
      cells := cells + [Blank];
      i := i + 1;
    }
    var day := 1;
    while day <= daysInMonth
      invariant 1 <= day <= daysInMonth + 1
      invariant |cells| == firstDay + day - 1
      invariant forall k :: 0 <= k < firstDay ==> cells[k] == Blank
      invariant forall k :: firstDay <= k < |cells| ==> cells[k] == DayCell(events, year, month0, k - firstDay + 1)
    {
      ghost var prev := cells;
      var cell := DayCell(events, year, month0, day);
      cells := cells + [cell];
      forall k | firstDay <= k < |cells|
        ensures cells[k] == DayCell(events, year, month0, k - firstDay + 1)
      {
        if k < |prev| {
          assert cells[k] == prev[k];
        } else {
          assert k == |prev| && k - firstDay + 1 == day;
        }
      }
      assert forall k :: 0 <= k < firstDay ==> cells[k] == prev[k];
      day := day + 1;
    }
  }

  // ---------------------------------------------------------------------------
  // The event form

  datatype EventForm = EventForm(title: string, description: string, eventType: string,
                                 eventDate: string, eventTime: string, reminder: string)

  /** The empty form; today's date is passed in. */
  function EmptyForm(today: string): (f: EventForm)
    ensures f.title == "" && f.description == "" && f.eventType == "PTM"
    ensures f.eventDate == today && f.eventTime == "10:00" && f.reminder == "On time"
  {
    EventForm("", "", "PTM", today, "10:00", "On time")
  }

  /** The form filled from an event; a missing description becomes ''. */
  function FormOf(e: Event): (f: EventForm)
    ensures f.title == e.title && f.eventType == e.eventType && f.eventDate == e.eventDate
    ensures f.eventTime == e.eventTime && f.reminder == e.reminder
    ensures f.description == (if e.description.Some? then e.description.value else "")
  {
    EventForm(e.title, if e.description.Some? then e.description.value else "", e.eventType,
              e.eventDate, e.eventTime, e.reminder)
  }

  // ---------------------------------------------------------------------------
  // The page

  class EventPage {
    var students: seq<Student>
    var events: seq<Event>
    var selectedEvent: Option<Event>
    var formData: EventForm
    var isCreating: bool
    var isEditing: bool
    var showNotificationModal: bool
    var selectedClasses: seq<string>
    var selectedStudents: seq<string>
    var notificationMode: NotificationMode
    var error: Option<string>
    var success: Option<string>

    constructor(today: string)
      ensures students == [] && events == [] && selectedEvent == None && formData == EmptyForm(today)
      ensures !isCreating && !isEditing && !showNotificationModal
      ensures selectedClasses == [] && selectedStudents == [] && notificationMode == ByClasses
      ensures error == None && success == None
    {
      students := [];
      events := [];
      selectedEvent := None;
      formData := EmptyForm(today);
      isCreating := false;
      isEditing := false;
      showNotificationModal := false;
      selectedClasses := [];
      selectedStudents := [];
      notificationMode := ByClasses;
      error := None;
      success := None;
    }

    /** The class check box. */
    method ToggleClass(className: string, checked: bool)
      modifies this
      ensures checked ==> selectedClasses == Checked(old(selectedClasses), className)
      ensures !checked ==> selectedClasses == Unchecked(old(selectedClasses), className)
      ensures selectedStudents == old(selectedStudents) && notificationMode == old(notificationMode)
      ensures students == old(students) && error == old(error) && success == old(success)
      ensures showNotificationModal == old(showNotificationModal) && formData == old(formData)
      ensures events == old(events) && selectedEvent == old(selectedEvent)
      ensures isCreating == old(isCreating) && isEditing == old(isEditing)
    {
      if checked {
        selectedClasses := Checked(selectedClasses, className);
      } else {
        selectedClasses := Unchecked(selectedClasses, className);
      }
    }

    /** The student check box. */
    method ToggleStudent(studentId: string, checked: bool)
      modifies this
      ensures checked ==> selectedStudents == Checked(old(selectedStudents), studentId)
      ensures !checked ==> selectedStudents == Unchecked(old(selectedStudents), studentId)
      ensures selectedClasses == old(selectedClasses) && notificationMode == old(notificationMode)
      ensures students == old(students) && error == old(error) && success == old(success)
      ensures showNotificationModal == old(showNotificationModal) && formData == old(formData)
      ensures events == old(events) && selectedEvent == old(selectedEvent)
      ensures isCreating == old(isCreating) && isEditing == old(isEditing)
    {
      if checked {
        selectedStudents := Checked(selectedStudents, studentId);
      } else {
        selectedStudents := Unchecked(selectedStudents, studentId);
      }
    }

    /** handleSendNotification: with no recipient the error shows and
        nothing else changes; otherwise the notice shows the count, the
        dialog closes and both selections are cleared. Returns the
        recipients the message goes to. */
    method HandleSendNotification() returns (sentTo: seq<Student>)
      modifies this
      ensures var r := Recipients(old(students), old(notificationMode), old(selectedClasses), old(selectedStudents));
        (|r| == 0 ==> (sentTo == [] && error == Some(NoRecipientsError) &&
                       selectedClasses == old(selectedClasses) && selectedStudents == old(selectedStudents) &&
                       showNotificationModal == old(showNotificationModal) && success == old(success))) &&
        (|r| > 0 ==> (sentTo == r && error == None && success == Some(SentNotice(|r|)) &&
                      !showNotificationModal && selectedClasses == [] && selectedStudents == []))
      ensures students == old(students) && events == old(events) && notificationMode == old(notificationMode)
      ensures formData == old(formData) && selectedEvent == old(selectedEvent)
      ensures isCreating == old(isCreating) && isEditing == old(isEditing)
    {
      error := None;
      var recipients := Recipients(students, notificationMode, selectedClasses, selectedStudents);
      if |recipients| == 0 {
        error := Some(NoRecipientsError);
        return [];
      }
      success := Some(SentNotice(|recipients|));
      showNotificationModal := false;
      selectedClasses := [];
      selectedStudents := [];
      return recipients;
    }

    /** handleEditEvent: the form is filled from the event. */
    method HandleEditEvent(e: Event)
      modifies this
      ensures selectedEvent == Some(e) && formData == FormOf(e) && isEditing && isCreating
      ensures students == old(students) && events == old(events) && error == old(error) && success == old(success)
      ensures selectedClasses == old(selectedClasses) && selectedStudents == old(selectedStudents)
      ensures showNotificationModal == old(showNotificationModal) && notificationMode == old(notificationMode)
    {
      selectedEvent := Some(e);
      formData := FormOf(e);
      isEditing := true;
      isCreating := true;
    }

    /** resetForm. */
    method ResetForm(today: string)
      modifies this
      ensures formData == EmptyForm(today) && !isCreating && !isEditing && selectedEvent == None
      ensures students == old(students) && events == old(events) && error == old(error) && success == old(success)
      ensures selectedClasses == old(selectedClasses) && selectedStudents == old(selectedStudents)
      ensures showNotificationModal == old(showNotificationModal) && notificationMode == old(notificationMode)
    {
      formData := EmptyForm(today);
      isCreating := false;
      isEditing := false;
      selectedEvent := None;
    }

    /** loadEvents and loadStudents; a failed student load is only logged. */
    method LoadMonth(eventsFetch: Result<seq<Event>>, studentsFetch: Result<seq<Student>>)
      modifies this
      ensures eventsFetch.Ok? ==> events == eventsFetch.value && error == None
      ensures eventsFetch.Err? ==> events == old(events) && error == Some(eventsFetch.message)
      ensures studentsFetch.Ok? ==> students == studentsFetch.value
      ensures studentsFetch.Err? ==> students == old(students)
      ensures selectedClasses == old(selectedClasses) && selectedStudents == old(selectedStudents)
      ensures formData == old(formData) && success == old(success)
      ensures selectedEvent == old(selectedEvent) && isCreating == old(isCreating) && isEditing == old(isEditing)
      ensures showNotificationModal == old(showNotificationModal) && notificationMode == old(notificationMode)
    {
      error := None;
      if eventsFetch.Err? {
        error := Some(eventsFetch.message);
      } else {
        events := eventsFetch.value;
      }
      if studentsFetch.Ok? {
        students := studentsFetch.value;
      }
    }
  }
}
