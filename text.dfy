/** String helpers shared by the components: the ASCII part of JavaScript's
    toLowerCase/toUpperCase, String.prototype.includes, split(' '), trim(),
    replace(/\s+/g, r), decimal rendering of integers and padStart(2, '0'). */
module Text {

  // ---------------------------------------------------------------------------
  // Case mapping (ASCII letters only)

  function LowerChar(c: char): (r: char)
    ensures 'A' <= c <= 'Z' ==> r as int == c as int + 32
    ensures !('A' <= c <= 'Z') ==> r == c
  {
    if 'A' <= c <= 'Z' then (c as int + 32) as char else c
  }

  function UpperChar(c: char): (r: char)
    ensures 'a' <= c <= 'z' ==> r as int == c as int - 32
    ensures !('a' <= c <= 'z') ==> r == c
  {
    if 'a' <= c <= 'z' then (c as int - 32) as char else c
  }

  /** s.toLowerCase() */
  function Lower(s: string): (r: string)
    ensures |r| == |s|
    ensures forall i :: 0 <= i < |s| ==> r[i] == LowerChar(s[i])
  {
    if |s| == 0 then [] else [LowerChar(s[0])] + Lower(s[1..])
  }

  /** s.toUpperCase() */
  function Upper(s: string): (r: string)
    ensures |r| == |s|
    ensures forall i :: 0 <= i < |s| ==> r[i] == UpperChar(s[i])
  {
    if |s| == 0 then [] else [UpperChar(s[0])] + Upper(s[1..])
  }

  // ---------------------------------------------------------------------------
  // Substring search

  /** hay.includes(needle): needle occurs somewhere in hay (the empty string always does). */
  predicate Includes(hay: string, needle: string)
    decreases |hay|
  {
    needle <= hay || (|hay| > 0 && Includes(hay[1..], needle))
  }

  /** needle occurs in hay starting at position i. */
  predicate OccursAt(hay: string, needle: string, i: int) {
    0 <= i && i + |needle| <= |hay| && hay[i..i + |needle|] == needle
  }

  /** Includes agrees with the positional definition of "occurs in". */
  lemma {:induction false} IncludesIsOccurrence(hay: string, needle: string)
    ensures Includes(hay, needle) <==> exists i :: OccursAt(hay, needle, i)
    decreases |hay|
  {
    if needle <= hay {
      assert OccursAt(hay, needle, 0);
    } else if |hay| > 0 {
      IncludesIsOccurrence(hay[1..], needle);
      if Includes(hay[1..], needle) {
        var i :| OccursAt(hay[1..], needle, i);
        assert hay[1..][i..i + |needle|] == hay[i + 1..i + 1 + |needle|];
        assert OccursAt(hay, needle, i + 1);
      }
      if exists i :: OccursAt(hay, needle, i) {
        var i :| OccursAt(hay, needle, i);
        assert i > 0;
        assert hay[1..][i - 1..i - 1 + |needle|] == hay[i..i + |needle|];
        assert OccursAt(hay[1..], needle, i - 1);
      }
    }
  }

  /** a.toLowerCase().includes(term.toLowerCase()) */
  predicate IncludesIgnoreCase(hay: string, term: string) {
    Includes(Lower(hay), Lower(term))
  }

  lemma IncludesEmpty(hay: string)
    ensures Includes(hay, "")
  {
  }

  // ---------------------------------------------------------------------------
  // split(' ') and join

  /** s.split(sep): the pieces between separators, empty pieces included. */
  function Split(s: string, sep: char): (r: seq<string>)
    ensures |r| >= 1
    decreases |s|
  {
    if |s| == 0 then [""]
    else if s[0] == sep then [""] + Split(s[1..], sep)
    else
      var rest := Split(s[1..], sep);
      [[s[0]] + rest[0]] + rest[1..]
  }

  function Join(words: seq<string>, sep: char): string
    requires |words| >= 1
  {
    if |words| == 1 then words[0] else words[0] + [sep] + Join(words[1..], sep)
  }

  /** Splitting and re-joining with the same separator gives the string back,
      and no piece contains the separator. */
  lemma {:induction false} SplitJoin(s: string, sep: char)
    ensures Join(Split(s, sep), sep) == s
    ensures forall k :: 0 <= k < |Split(s, sep)| ==> sep !in Split(s, sep)[k]
    decreases |s|
  {
    if |s| == 0 {
    } else if s[0] == sep {
      SplitJoin(s[1..], sep);
      assert Split(s, sep)[1..] == Split(s[1..], sep);
      assert s == [sep] + s[1..];
    } else {
      SplitJoin(s[1..], sep);
      var rest := Split(s[1..], sep);
      var r := Split(s, sep);
      assert r[1..] == rest[1..];
      if |rest| == 1 {
        assert Join(r, sep) == [s[0]] + rest[0];
      } else {
        assert Join(rest, sep) == rest[0] + [sep] + Join(rest[1..], sep);
        assert Join(r, sep) == [s[0]] + rest[0] + [sep] + Join(rest[1..], sep);
      }
      assert s == [s[0]] + s[1..];
      forall k | 0 <= k < |r| ensures sep !in r[k] {
        if k > 0 { assert r[k] == rest[k]; }
      }
    }
  }

  /** A piece without the separator splits to itself. */
  lemma {:induction false} SplitNoSep(a: string, sep: char)
    requires sep !in a
    ensures Split(a, sep) == [a]
    decreases |a|
  {
    if |a| > 0 {
      SplitNoSep(a[1..], sep);
      assert [a[0]] + a[1..] == a;
    }
  }

  /** Splitting `a + sep + b`, where a has no separator, gives a first and
      then the pieces of b. */
  lemma {:induction false} SplitCons(a: string, b: string, sep: char)
    requires sep !in a
    ensures Split(a + [sep] + b, sep) == [a] + Split(b, sep)
    decreases |a|
  {
    if |a| == 0 {
      assert a + [sep] + b == [sep] + b;
      assert ([sep] + b)[1..] == b;
    } else {
      SplitCons(a[1..], b, sep);
      assert (a + [sep] + b)[1..] == a[1..] + [sep] + b;
      assert [a[0]] + a[1..] == a;
    }
  }

  // ---------------------------------------------------------------------------
  // Initials: name.split(' ').map(w => w.charAt(0)).join('').toUpperCase().slice(0, 2)

  /** word.charAt(0): the first character, or "" for the empty word. */
  function FirstChar(w: string): (r: string)
    ensures |r| <= 1
  {
    if |w| == 0 then "" else [w[0]]
  }

  function Heads(words: seq<string>): string {
    if |words| == 0 then "" else FirstChar(words[0]) + Heads(words[1..])
  }

  /** Reference definition: the non-space characters that start a word, i.e.
      stand first or right after a space. `atStart` says the previous character
      was a space (or there was none). */
  function WordStarts(s: string, atStart: bool): string
    decreases |s|
  {
    if |s| == 0 then ""
    else (if atStart && s[0] != ' ' then [s[0]] else "") + WordStarts(s[1..], s[0] == ' ')
  }

  function Take2(s: string): (r: string)
    ensures |r| <= 2
    ensures r <= s
    ensures |s| <= 2 ==> r == s
  {
    if |s| <= 2 then s else s[..2]
  }

  function Initials(name: string): string {
    Take2(Upper(Heads(Split(name, ' '))))
  }

  /** The split-based first characters are exactly the word starts. */
  lemma {:induction false} HeadsAreWordStarts(s: string)
    ensures Heads(Split(s, ' ')) == WordStarts(s, true)
    ensures Heads(Split(s, ' ')[1..]) == WordStarts(s, false)
    decreases |s|
  {
    if |s| == 0 {
    } else if s[0] == ' ' {
      HeadsAreWordStarts(s[1..]);
      assert Split(s, ' ')[1..] == Split(s[1..], ' ');
    } else {
      HeadsAreWordStarts(s[1..]);
      var rest := Split(s[1..], ' ');
      assert Split(s, ' ')[1..] == rest[1..];
      assert FirstChar(Split(s, ' ')[0]) == [s[0]];
    }
  }

  /** getInitials has at most two characters, and they are the upper-cased
      first two word starts of the name. */
  lemma InitialsSpec(name: string)
    ensures |Initials(name)| <= 2
    ensures Initials(name) == Take2(Upper(WordStarts(name, true)))
    ensures forall i :: 0 <= i < |Initials(name)| ==> !('a' <= Initials(name)[i] <= 'z')
  {
    HeadsAreWordStarts(name);
  }

  /** A two-word name gets the two upper-cased first letters. */
  lemma InitialsTwoWords(first: string, last: string)
    requires |first| > 0 && |last| > 0 && ' ' !in first && ' ' !in last
    ensures Initials(first + " " + last) == [UpperChar(first[0]), UpperChar(last[0])]
  {
    HeadsAreWordStarts(first + " " + last);
    NoSpaceWordStarts(first[1..]);
    NoSpaceWordStarts(last[1..]);
    WordStartsAppend(first, " " + last, true);
    assert (first + " " + last) == first + (" " + last);
    WordStartsNoSpaceTail(first);
    assert WordStarts(" " + last, false) == WordStarts(last, true) by {
      assert (" " + last)[1..] == last;
    }
    assert WordStarts(last, true) == [last[0]] + WordStarts(last[1..], false);
  }

  lemma {:induction false} NoSpaceWordStarts(s: string)
    requires ' ' !in s
    ensures WordStarts(s, false) == ""
    decreases |s|
  {
    if |s| > 0 {
      assert s[0] != ' ';
      NoSpaceWordStarts(s[1..]);
    }
  }

  /** After a non-empty space-free word the scanner is no longer at a word start. */
  lemma WordStartsNoSpaceTail(s: string)
    requires |s| > 0 && ' ' !in s
    ensures WordStarts(s, true) == [s[0]]
    ensures LastIsSpace(s, true) == false
  {
    NoSpaceWordStarts(s[1..]);
    NoSpaceLast(s[1..], false);
  }

  /** Scanner state after reading s starting in state `atStart`. */
  function LastIsSpace(s: string, atStart: bool): bool {
    if |s| == 0 then atStart else s[|s| - 1] == ' '
  }

  lemma {:induction false} NoSpaceLast(s: string, atStart: bool)
    requires ' ' !in s
    ensures |s| > 0 ==> LastIsSpace(s, atStart) == false
  {
  }

  lemma {:induction false} WordStartsAppend(a: string, b: string, atStart: bool)
    ensures WordStarts(a + b, atStart) == WordStarts(a, atStart) + WordStarts(b, LastIsSpace(a, atStart))
    decreases |a|
  {
    if |a| == 0 {
      assert a + b == b;
    } else {
      var h := if atStart && a[0] != ' ' then [a[0]] else "";
      var next := a[0] == ' ';
      var ab := a + b;
      assert ab[0] == a[0] && ab[1..] == a[1..] + b;
      var tailA := WordStarts(a[1..], next);
      var tailB := WordStarts(b, LastIsSpace(a[1..], next));
      WordStartsAppend(a[1..], b, next);
      assert LastIsSpace(a[1..], next) == LastIsSpace(a, atStart) by {
        if |a| > 1 {
          assert a[1..][|a[1..]| - 1] == a[|a| - 1];
        }
      }
      calc {
        WordStarts(ab, atStart);
        h + WordStarts(a[1..] + b, next);
        h + (tailA + tailB);
        { assert h + (tailA + tailB) == (h + tailA) + tailB; }
        WordStarts(a, atStart) + tailB;
      }
    }
  }

  // ---------------------------------------------------------------------------
  // Whitespace: trim() and replace(/\s+/g, r)

  /** The characters JavaScript treats as white space in trim() and in /\s/. */
  predicate IsSpace(c: char) {
    var n := c as int;
    n == 0x09 || n == 0x0A || n == 0x0B || n == 0x0C || n == 0x0D || n == 0x20 ||
    n == 0xA0 || n == 0x1680 || (0x2000 <= n <= 0x200A) || n == 0x2028 || n == 0x2029 ||
    n == 0x202F || n == 0x205F || n == 0x3000 || n == 0xFEFF
  }

  function TrimStart(s: string): (r: string)
    ensures |r| <= |s|
    decreases |s|
  {
    if |s| > 0 && IsSpace(s[0]) then TrimStart(s[1..]) else s
  }

  function TrimEnd(s: string): (r: string)
    ensures |r| <= |s|
    decreases |s|
  {
    if |s| > 0 && IsSpace(s[|s| - 1]) then TrimEnd(s[..|s| - 1]) else s
  }

  /** s.trim() */
  function Trim(s: string): string {
    TrimEnd(TrimStart(s))
  }

  predicate AllSpace(s: string) {
    forall i :: 0 <= i < |s| ==> IsSpace(s[i])
  }

  lemma {:induction false} TrimStartEmpty(s: string)
    ensures TrimStart(s) == "" <==> AllSpace(s)
    decreases |s|
  {
    if |s| > 0 && IsSpace(s[0]) {
      TrimStartEmpty(s[1..]);
      assert AllSpace(s) <==> AllSpace(s[1..]) by {
        if AllSpace(s[1..]) {
          forall i | 0 <= i < |s| ensures IsSpace(s[i]) { if i > 0 { assert s[i] == s[1..][i - 1]; } }
        }
      }
    }
  }

  lemma {:induction false} TrimEndEmpty(s: string)
    requires TrimStart(s) == s
    ensures TrimEnd(s) == "" <==> s == ""
    decreases |s|
  {
    if |s| > 1 && IsSpace(s[|s| - 1]) {
      assert TrimStart(s[..|s| - 1]) == s[..|s| - 1];
      TrimEndEmpty(s[..|s| - 1]);
    }
  }

  /** trim() yields the empty string exactly when every character is white space. */
  lemma TrimEmptyIffAllSpace(s: string)
    ensures Trim(s) == "" <==> AllSpace(s)
  {
    TrimStartEmpty(s);
    TrimStartFixed(s);
    TrimEndEmpty(TrimStart(s));
  }

  lemma {:induction false} TrimStartFixed(s: string)
    ensures TrimStart(TrimStart(s)) == TrimStart(s)
    decreases |s|
  {
    if |s| > 0 && IsSpace(s[0]) {
      TrimStartFixed(s[1..]);
    }
  }

  /** s.replace(/\s+/g, r): every maximal run of white space becomes r.
      `inRun` says the previous character was white space already replaced. */
  function CollapseSpace(s: string, r: string, inRun: bool): string
    decreases |s|
  {
    if |s| == 0 then ""
    else if IsSpace(s[0]) then (if inRun then "" else r) + CollapseSpace(s[1..], r, true)
    else [s[0]] + CollapseSpace(s[1..], r, false)
  }

  function ReplaceSpaceRuns(s: string, r: string): string {
    CollapseSpace(s, r, false)
  }

  /** With a replacement free of white space, no white space is left. */
  lemma {:induction false} ReplaceSpaceRunsNoSpace(s: string, r: string, inRun: bool)
    requires forall i :: 0 <= i < |r| ==> !IsSpace(r[i])
    ensures forall i :: 0 <= i < |CollapseSpace(s, r, inRun)| ==> !IsSpace(CollapseSpace(s, r, inRun)[i])
    decreases |s|
  {
    if |s| > 0 {
      ReplaceSpaceRunsNoSpace(s[1..], r, IsSpace(s[0]));
      var head := if IsSpace(s[0]) then (if inRun then "" else r) else [s[0]];
      var tail := CollapseSpace(s[1..], r, IsSpace(s[0]));
      assert CollapseSpace(s, r, inRun) == head + tail;
      forall i | 0 <= i < |head + tail| ensures !IsSpace((head + tail)[i]) {
        if i >= |head| { assert (head + tail)[i] == tail[i - |head|]; }
      }
    }
  }

  /** A string without white space is left unchanged. */
  lemma {:induction false} ReplaceSpaceRunsIdentity(s: string, r: string, inRun: bool)
    requires forall i :: 0 <= i < |s| ==> !IsSpace(s[i])
    ensures CollapseSpace(s, r, inRun) == s
    decreases |s|
  {
    if |s| > 0 {
      assert !IsSpace(s[0]);
      assert forall i :: 0 <= i < |s[1..]| ==> !IsSpace(s[1..][i]) by {
        forall i | 0 <= i < |s[1..]| ensures !IsSpace(s[1..][i]) {
          assert s[i + 1] == s[1..][i];
        }
      }
      ReplaceSpaceRunsIdentity(s[1..], r, false);
      assert s == [s[0]] + s[1..];
    }
  }

  // ---------------------------------------------------------------------------
  // Numbers as decimal strings: String(n) and padStart(2, '0')

  function DigitChar(d: nat): (c: char)
    requires d < 10
    ensures '0' <= c <= '9'
  {
    ('0' as int + d) as char
  }

  /** String(n) for a natural number. */
  function NatToString(n: nat): (s: string)
    ensures |s| >= 1
    ensures forall i :: 0 <= i < |s| ==> '0' <= s[i] <= '9'
  {
    if n < 10 then [DigitChar(n)] else NatToString(n / 10) + [DigitChar(n % 10)]
  }

  /** String(n) for an integer: a minus sign in front of negative numbers. */
  function IntToString(n: int): string {
    if n < 0 then "-" + NatToString(-n) else NatToString(n)
  }

  predicate IsDigits(s: string) {
    forall i :: 0 <= i < |s| ==> '0' <= s[i] <= '9'
  }

  /** Reads a string of decimal digits. */
  function ParseNat(s: string): nat
    requires IsDigits(s)
  {
    if |s| == 0 then 0 else 10 * ParseNat(s[..|s| - 1]) + (s[|s| - 1] as int - '0' as int)
  }

  /** NatToString is inverted by ParseNat. */
  lemma {:induction false} NatToStringRoundTrip(n: nat)
    ensures IsDigits(NatToString(n)) && ParseNat(NatToString(n)) == n
  {
    if n >= 10 {
      NatToStringRoundTrip(n / 10);
      var s := NatToString(n);
      assert s[..|s| - 1] == NatToString(n / 10);
    }
  }

  /** NatToString has two digits exactly for 10..99. */
  lemma NatToStringLength(n: nat)
    ensures n < 10 ==> |NatToString(n)| == 1
    ensures 10 <= n < 100 ==> |NatToString(n)| == 2
  {
  }

  /** String(n).padStart(2, '0') */
  function Pad2(n: int): string {
    var s := IntToString(n);
    if |s| < 2 then "0" + s else s
  }

  /** For 0..99 the padded form is exactly two digits and reads back as n. */
  lemma Pad2Spec(n: nat)
    requires n < 100
    ensures |Pad2(n)| == 2 && IsDigits(Pad2(n)) && ParseNat(Pad2(n)) == n
  {
    NatToStringLength(n);
    NatToStringRoundTrip(n);
    if n < 10 {
      var s := NatToString(n);
      assert Pad2(n) == "0" + s;
      assert ("0" + s)[..1] == "0";
      assert ParseNat("0") == 0;
    }
  }

  /** `${year}-${pad2(month0 + 1)}-${pad2(day)}`: the calendar date key used by
      the event calendar and the student attendance calendar. */
  function DateKey(year: int, month0: int, day: int): string {
    IntToString(year) + "-" + Pad2(month0 + 1) + "-" + Pad2(day)
  }

  /** For a real month (0..11) and day (1..31) the key is the year, a dash,
      two month digits that read back as month0 + 1, a dash, and two day
      digits that read back as day. */
  lemma DateKeySpec(year: nat, month0: nat, day: nat)
    requires month0 < 12 && 1 <= day <= 31
    ensures var mm := Pad2(month0 + 1);
            var dd := Pad2(day);
            DateKey(year, month0, day) == NatToString(year) + "-" + mm + "-" + dd &&
            |mm| == 2 && IsDigits(mm) && ParseNat(mm) == month0 + 1 &&
            |dd| == 2 && IsDigits(dd) && ParseNat(dd) == day
  {
    Pad2Spec(month0 + 1);
    Pad2Spec(day);
  }

  /** Two days of a month have different keys, so a calendar cell
      looks up only its own day. */
  lemma DateKeyDaysDistinct(year: nat, month0: nat, d1: nat, d2: nat)
    requires month0 < 12 && 1 <= d1 <= 31 && 1 <= d2 <= 31 && d1 != d2
    ensures DateKey(year, month0, d1) != DateKey(year, month0, d2)
  {
    DateKeySpec(year, month0, d1);
    DateKeySpec(year, month0, d2);
    var k1 := DateKey(year, month0, d1);
    var k2 := DateKey(year, month0, d2);
    assert k1[|k1| - 2..] == Pad2(d1);
    assert k2[|k2| - 2..] == Pad2(d2);
  }

  // ---------------------------------------------------------------------------
  // String order: the `<` of JavaScript strings and the default sort order

  /** a < b on strings: the first differing character decides, and a
      proper prefix comes first. */
  predicate StrLess(a: string, b: string)
    decreases |a|
  {
    if |a| == 0 then |b| > 0
    else if |b| == 0 then false
    else if a[0] != b[0] then a[0] < b[0]
    else StrLess(a[1..], b[1..])
  }

  /** No string is less than itself, and of two strings at most one is the
      smaller. */
  lemma {:induction false} StrLessAsymmetric(a: string, b: string)
    ensures StrLess(a, b) ==> !StrLess(b, a)
    decreases |a|
  {
    if |a| > 0 && |b| > 0 && a[0] == b[0] {
      StrLessAsymmetric(a[1..], b[1..]);
    }
  }

  /** Of two different strings one is the smaller. */
  lemma {:induction false} StrLessTotal(a: string, b: string)
    requires a != b
    ensures StrLess(a, b) || StrLess(b, a)
    decreases |a|
  {
    if |a| > 0 && |b| > 0 && a[0] == b[0] {
      assert a == [a[0]] + a[1..];
      assert b == [b[0]] + b[1..];
      StrLessTotal(a[1..], b[1..]);
    }
  }

  /** The order is transitive. */
  lemma {:induction false} StrLessTransitive(a: string, b: string, c: string)
    requires StrLess(a, b) && StrLess(b, c)
    ensures StrLess(a, c)
    decreases |a|
  {
    if |a| > 0 && |b| > 0 && |c| > 0 && a[0] == b[0] && b[0] == c[0] {
      StrLessTransitive(a[1..], b[1..], c[1..]);
    }
  }
}
