/** `NaturalLanguageParser`: turns a Korean one-line task description into
    a title, a due date and time, a priority, hashtags and a goal mention.
    The patterns are written out as the character tests that
    java.util.regex would perform; `\d` is `[0-9]` and `\w` is
    `[a-zA-Z_0-9]`. The day the parse happens is the parameter `today`. */
module NlParser {
  import opened Wrappers
  import opened Dates
  import opened Text
  import opened Models

  datatype TodoParseResult = TodoParseResult(
    title: string,
    dueDate: Option<string>,
    dueTime: Option<string>,
    priority: Priority,
    tags: seq<string>,
    goalName: Option<string>)

  // ---------------------------------------------------------------------
  // Keyword tables, in the iteration order of the source's maps

  const DateKeywords: seq<(string, int)> :=
    [("오늘", 0), ("내일", 1), ("모레", 2), ("글피", 3), ("다음주", 7), ("담주", 7), ("이번주", 0)]

  /** Weekday names with their ISO day numbers, Monday = 1. */
  const Weekdays: seq<(string, int)> :=
    [("월요일", 1), ("화요일", 2), ("수요일", 3), ("목요일", 4), ("금요일", 5), ("토요일", 6), ("일요일", 7),
     ("월", 1), ("화", 2), ("수", 3), ("목", 4), ("금", 5), ("토", 6), ("일", 7)]

  const PriorityKeywords: seq<(string, Priority)> :=
    [("중요", HIGH), ("긴급", HIGH), ("급함", HIGH), ("!!!", HIGH), ("!!", MEDIUM), ("!", LOW)]

  /** The index of the last table entry whose keyword occurs in `s`. */
  function LastHit<V>(s: string, keys: seq<(string, V)>): (r: Option<nat>)
    ensures r.None? <==> forall j :: 0 <= j < |keys| ==> !Contains(s, keys[j].0)
    ensures r.Some? ==> r.value < |keys| && Contains(s, keys[r.value].0)
    ensures r.Some? ==> forall j :: r.value < j < |keys| ==> !Contains(s, keys[j].0)
  {
    if |keys| == 0 then None
    else
      match LastHit(s, keys[1..])
      case Some(j) => Some(j + 1)
      case None => if Contains(s, keys[0].0) then Some(0) else None
  }

  /** The index of the first table entry whose keyword occurs in `s`. */
  function FirstHit<V>(s: string, keys: seq<(string, V)>): (r: Option<nat>)
    ensures r.None? <==> forall j :: 0 <= j < |keys| ==> !Contains(s, keys[j].0)
    ensures r.Some? ==> r.value < |keys| && Contains(s, keys[r.value].0)
    ensures r.Some? ==> forall j :: 0 <= j < r.value ==> !Contains(s, keys[j].0)
  {
    if |keys| == 0 then None
    else if Contains(s, keys[0].0) then Some(0)
    else
      match FirstHit(s, keys[1..])
      case Some(j) => Some(j + 1)
      case None => None
  }

  /** `title.replace(word, "")`; replacing the empty text by itself
      changes nothing. */
  function Drop(title: string, word: string): (r: string)
    ensures |r| <= |title|
  {
    if |word| == 0 then title else ReplaceAll(title, word, "")
  }

  /** `title.replace(word, "").trim()`. */
  function Strip(title: string, word: string): (r: string)
    ensures |r| <= |title|
  {
    Trim(Drop(title, word))
  }

  // ---------------------------------------------------------------------
  // The time pattern `(\d{1,2})(시|:)(\d{2})?(분)?`

  predicate IsTimeSeparator(c: char) {
    c == '시' || c == ':'
  }

  /** The time pattern matches at `i`: one or two digits, then a separator. */
  predicate TimeAt(s: string, i: int) {
    && 0 <= i && i + 1 < |s| && IsDigit(s[i])
    && (IsTimeSeparator(s[i + 1]) || (i + 2 < |s| && IsDigit(s[i + 1]) && IsTimeSeparator(s[i + 2])))
  }

  /** The groups of one match: the hour digits, the optional minute digits
      and the whole matched text. */
  datatype TimeMatch = TimeMatch(hour: string, minute: Option<string>, text: string)

  /** The greedy match at `i`: two hour digits when they are followed by a
      separator, then two minute digits if present, then `분` if present. */
  function TimeMatchAt(s: string, i: int): (m: TimeMatch)
    requires TimeAt(s, i)
    ensures 1 <= |m.hour| <= 2 && AllDigits(m.hour)
    ensures m.minute.Some? ==> |m.minute.value| == 2 && AllDigits(m.minute.value)
    ensures OccursAt(s, m.text, i)
    ensures |m.hour| < |m.text| && m.text[..|m.hour|] == m.hour && IsTimeSeparator(m.text[|m.hour|])
    ensures m.minute.Some? ==> |m.hour| + 3 <= |m.text| && m.text[|m.hour| + 1..|m.hour| + 3] == m.minute.value
  {
    var h := if i + 2 < |s| && IsDigit(s[i + 1]) && IsTimeSeparator(s[i + 2]) then 2 else 1;
    var j := i + h + 1;
    var mm := if j + 1 < |s| && IsDigit(s[j]) && IsDigit(s[j + 1]) then 2 else 0;
    var end := if j + mm < |s| && s[j + mm] == '분' then j + mm + 1 else j + mm;
    MatchText(s, i, h, mm, end);
    TimeMatch(s[i..i + h], if mm == 2 then Some(s[j..j + 2]) else None, s[i..end])
  }

  /** Where the hour, the separator and the minutes sit inside the matched
      text `s[i..end]`. */
  lemma MatchText(s: string, i: int, h: int, mm: int, end: int)
    requires 0 <= i && 1 <= h && 0 <= mm && i + h + 1 + mm <= end <= |s|
    ensures s[i..end][..h] == s[i..i + h] && s[i..end][h] == s[i + h]
    ensures mm == 2 ==> s[i..end][h + 1..h + 3] == s[i + h + 1..i + h + 3]
  {
    SliceOfSlice(s, i, end, 0, h);
    if mm == 2 {
      SliceOfSlice(s, i, end, h + 1, h + 3);
    }
  }

  /** `Matcher.find()` from `i`: the first position where the time pattern
      matches. */
  function FindTime(s: string, i: nat): (r: Option<nat>)
    requires i <= |s|
    ensures r.None? <==> forall j :: i <= j < |s| ==> !TimeAt(s, j)
    ensures r.Some? ==> i <= r.value < |s| && TimeAt(s, r.value)
    ensures r.Some? ==> forall j :: i <= j < r.value ==> !TimeAt(s, j)
    decreases |s| - i
  {
    if i == |s| then None
    else if TimeAt(s, i) then Some(i)
    else FindTime(s, i + 1)
  }

  /** `String.format("%02d:%02d", hour, minute)`, the minute defaulting
      to 0. */
  function FormatTime(m: TimeMatch): (r: string)
    requires 1 <= |m.hour| <= 2 && AllDigits(m.hour)
    requires m.minute.Some? ==> |m.minute.value| == 2 && AllDigits(m.minute.value)
    ensures |r| == 5 && r[2] == ':' && AllDigits(r[..2]) && AllDigits(r[3..])
    ensures DecimalValue(r[..2]) == DecimalValue(m.hour)
    ensures DecimalValue(r[3..]) == if m.minute.Some? then DecimalValue(m.minute.value) else 0
  {
    DecimalBound(m.hour);
    var hour := DecimalValue(m.hour);
    var minute := if m.minute.Some? then DecimalValue(m.minute.value) else 0;
    assert minute < 100 by {
      if m.minute.Some? {
        DecimalBound(m.minute.value);
      }
    }
    assert Pow10(2) == 100;
    FixedValue(hour, 2);
    FixedValue(minute, 2);
    var r := Fixed(hour, 2) + [':'] + Fixed(minute, 2);
    assert r[..2] == Fixed(hour, 2) && r[3..] == Fixed(minute, 2);
    r
  }

  // ---------------------------------------------------------------------
  // Date keywords and weekday names

  /** The ISO number of the day `n` days after a day numbered `dow`. */
  function Shift(dow: int, n: int): int {
    (dow - 1 + n) % 7 + 1
  }

  /** Days from a day with ISO number `dow` to the next day numbered `day`,
      a full week when they coincide. */
  function DaysUntil(day: int, dow: int): (n: int)
    ensures 1 <= day <= 7 && 1 <= dow <= 7 ==> 1 <= n <= 7
    ensures day == dow ==> n == 7
    ensures 1 <= day <= 7 && 1 <= dow <= 7 ==> Shift(dow, n) == day
    ensures 1 <= day <= 7 && 1 <= dow <= 7 ==> forall m :: 1 <= m < n ==> Shift(dow, m) != day
  {
    if day > dow then day - dow else 7 - dow + day
  }

  /** The weekday date is the first day after today that falls on that
      weekday. */
  lemma NextWeekday(today: LocalDate, day: int)
    requires 1 <= day <= 7
    ensures var n := DaysUntil(day, Weekday(today));
      && 1 <= n <= 7
      && Weekday(PlusDays(today, n)) == day
      && forall m :: 1 <= m < n ==> Weekday(PlusDays(today, m)) != day
  {
    var w := Weekday(today);
    var n := DaysUntil(day, w);
    forall m | true
      ensures Weekday(PlusDays(today, m)) == Shift(w, m)
    {
      WeekdayPlusDays(today, m);
    }
  }

  /** The date-keyword loop: each keyword found in the input sets the due
      date to today plus its offset and is cut from the title; every entry
      is visited, so the last one found decides. */
  function DateKeywordStep(input: string, today: LocalDate, keys: seq<(string, int)>, p: TodoParseResult)
    : (r: TodoParseResult)
    ensures r == p.(title := r.title, dueDate := r.dueDate)
    ensures |r.title| <= |p.title|
    decreases |keys|
  {
    if |keys| == 0 then p
    else
      var q := if Contains(input, keys[0].0)
               then p.(dueDate := Some(ToString(PlusDays(today, keys[0].1))), title := Strip(p.title, keys[0].0))
               else p;
      DateKeywordStep(input, today, keys[1..], q)
  }

  /** The due date the loop leaves: the last keyword found decides. */
  lemma {:induction false} DateKeywordStepDate(input: string, today: LocalDate, keys: seq<(string, int)>, p: TodoParseResult)
    ensures var r := DateKeywordStep(input, today, keys, p);
      && (LastHit(input, keys).None? ==> r.dueDate == p.dueDate)
      && (LastHit(input, keys).Some? ==>
            r.dueDate == Some(ToString(PlusDays(today, keys[LastHit(input, keys).value].1))))
    decreases |keys|
  {
    if |keys| > 0 {
      var q := if Contains(input, keys[0].0)
               then p.(dueDate := Some(ToString(PlusDays(today, keys[0].1))), title := Strip(p.title, keys[0].0))
               else p;
      DateKeywordStepDate(input, today, keys[1..], q);
    }
  }

  /** `title.replace(dayName, "").replace("다음", "").trim()`: the weekday
      name and every `다음` (next) go before a single trim. */
  function WeekdayTitle(title: string, dayName: string): (r: string)
    ensures |r| <= |title|
  {
    Trim(Drop(Drop(title, dayName), "다음"))
  }

  /** The weekday loop: each name found sets the due date to the next day
      with that weekday and is cut from the title together with `다음`. */
  function WeekdayStep(input: string, today: LocalDate, keys: seq<(string, int)>, p: TodoParseResult)
    : (r: TodoParseResult)
    ensures r == p.(title := r.title, dueDate := r.dueDate)
    ensures |r.title| <= |p.title|
    decreases |keys|
  {
    if |keys| == 0 then p
    else
      var q := if Contains(input, keys[0].0)
               then p.(dueDate := Some(ToString(PlusDays(today, DaysUntil(keys[0].1, Weekday(today))))),
                       title := WeekdayTitle(p.title, keys[0].0))
               else p;
      WeekdayStep(input, today, keys[1..], q)
  }

  /** The due date the loop leaves: the last weekday name found decides. */
  lemma {:induction false} WeekdayStepDate(input: string, today: LocalDate, keys: seq<(string, int)>, p: TodoParseResult)
    ensures var r := WeekdayStep(input, today, keys, p);
      && (LastHit(input, keys).None? ==> r.dueDate == p.dueDate)
      && (LastHit(input, keys).Some? ==>
            r.dueDate == Some(ToString(PlusDays(today, DaysUntil(keys[LastHit(input, keys).value].1, Weekday(today))))))
    decreases |keys|
  {
    if |keys| > 0 {
      var q := if Contains(input, keys[0].0)
               then p.(dueDate := Some(ToString(PlusDays(today, DaysUntil(keys[0].1, Weekday(today))))),
                       title := WeekdayTitle(p.title, keys[0].0))
               else p;
      WeekdayStepDate(input, today, keys[1..], q);
    }
  }

  // ---------------------------------------------------------------------
  // Priority

  /** The priority loop as written: each keyword found sets the priority
      and is cut from the title, so the last one found decides. */
  function PriorityStep(input: string, keys: seq<(string, Priority)>, p: TodoParseResult): (r: TodoParseResult)
    ensures r == p.(title := r.title, priority := r.priority)
    ensures |r.title| <= |p.title|
    decreases |keys|
  {
    if |keys| == 0 then p
    else
      var q := if Contains(input, keys[0].0)
               then p.(priority := keys[0].1, title := Strip(p.title, keys[0].0))
               else p;
      PriorityStep(input, keys[1..], q)
  }

  /** The priority the loop leaves: the last keyword found decides. */
  lemma {:induction false} PriorityStepLevel(input: string, keys: seq<(string, Priority)>, p: TodoParseResult)
    ensures var r := PriorityStep(input, keys, p);
      && (LastHit(input, keys).None? ==> r.priority == p.priority)
      && (LastHit(input, keys).Some? ==> r.priority == keys[LastHit(input, keys).value].1)
    decreases |keys|
  {
    if |keys| > 0 {
      var q := if Contains(input, keys[0].0)
               then p.(priority := keys[0].1, title := Strip(p.title, keys[0].0))
               else p;
      PriorityStepLevel(input, keys[1..], q);
    }
  }

  /** The priority the keyword table evidently means: the first entry
      found, so the strongest marker wins. */
  function PriorityOf(input: string): (r: Priority)
    ensures r == NONE <==> forall j :: 0 <= j < |PriorityKeywords| ==> !Contains(input, PriorityKeywords[j].0)
  {
    match FirstHit(input, PriorityKeywords)
    case None => NONE
    case Some(j) => PriorityKeywords[j].1
  }

  predicate HasHighMarker(input: string) {
    Contains(input, "중요") || Contains(input, "긴급") || Contains(input, "급함") || Contains(input, "!!!")
  }

  /** The intended reading of the table: a high marker gives HIGH, else
      `!!` gives MEDIUM, else `!` gives LOW. */
  lemma PriorityOfMeaning(input: string)
    ensures PriorityOf(input) == HIGH <==> HasHighMarker(input)
    ensures PriorityOf(input) == MEDIUM <==> !HasHighMarker(input) && Contains(input, "!!")
    ensures PriorityOf(input) == LOW <==> !HasHighMarker(input) && !Contains(input, "!!") && Contains(input, "!")
    ensures Contains(input, "!!!") ==> PriorityOf(input) == HIGH
  {
    var k := PriorityKeywords;
    assert k[0].0 == "중요" && k[1].0 == "긴급" && k[2].0 == "급함";
    assert k[3].0 == "!!!" && k[4].0 == "!!" && k[5].0 == "!";
  }

  // ---------------------------------------------------------------------
  // Hashtags `#([가-힣\w]+)` and mentions `@([가-힣\w]+)`

  /** The class `[가-힣\w]`: a Hangul syllable, an ASCII letter or digit, or `_`. */
  predicate IsTagChar(c: char) {
    ('가' <= c <= '힣') || ('a' <= c <= 'z') || ('A' <= c <= 'Z') || ('0' <= c <= '9') || c == '_'
  }

  /** The length of the longest run of tag characters starting at `i`. */
  function WordRun(s: string, i: nat): (n: nat)
    requires i <= |s|
    ensures i + n <= |s|
    ensures forall k :: i <= k < i + n ==> IsTagChar(s[k])
    ensures i + n == |s| || !IsTagChar(s[i + n])
    decreases |s| - i
  {
    if i < |s| && IsTagChar(s[i]) then 1 + WordRun(s, i + 1) else 0
  }

  /** The pattern `marker` + tag characters matches at `j`. */
  predicate MarkedAt(s: string, j: int, marker: char) {
    0 <= j && j + 1 < |s| && s[j] == marker && IsTagChar(s[j + 1])
  }

  /** The captured group of the match at `j`: the whole run after the marker. */
  function TagAt(s: string, j: int, marker: char): (t: string)
    requires MarkedAt(s, j, marker)
    ensures |t| > 0 && forall k :: 0 <= k < |t| ==> IsTagChar(t[k])
    ensures OccursAt(s, [marker] + t, j)
    ensures j + 1 + |t| == |s| || !IsTagChar(s[j + 1 + |t|])
  {
    var t := s[j + 1..j + 1 + WordRun(s, j + 1)];
    assert s[j..j + 1 + |t|] == [marker] + t;
    t
  }

  /** Where the match at `j` ends: after the marker and its tag word. */
  function TagEnd(s: string, j: nat, marker: char): (e: nat)
    requires MarkedAt(s, j, marker)
    ensures j + 1 < e <= |s| && e == j + 1 + |TagAt(s, j, marker)|
    ensures !IsTagChar(marker) ==> forall q :: j < q < e ==> !MarkedAt(s, q, marker)
  {
    j + 1 + WordRun(s, j + 1)
  }

  /** `Matcher.find()` from `i`: the first position a match starts at. */
  function NextMark(s: string, i: nat, marker: char): (r: Option<nat>)
    requires i <= |s|
    ensures r.None? <==> forall j :: i <= j < |s| ==> !MarkedAt(s, j, marker)
    ensures r.Some? ==> i <= r.value < |s| && MarkedAt(s, r.value, marker)
    ensures r.Some? ==> forall j :: i <= j < r.value ==> !MarkedAt(s, j, marker)
    decreases |s| - i
  {
    if i == |s| then None
    else if MarkedAt(s, i, marker) then Some(i)
    else NextMark(s, i + 1, marker)
  }

  /** The groups of all successive matches from `i`: after each match the
      search resumes at the end of its tag word. */
  function TagsFrom(s: string, i: nat, marker: char): (r: seq<string>)
    requires i <= |s| && !IsTagChar(marker)
    ensures forall t :: t in r ==> exists j :: i <= j < |s| && MarkedAt(s, j, marker) && t == TagAt(s, j, marker)
    ensures forall j :: i <= j < |s| && MarkedAt(s, j, marker) ==> TagAt(s, j, marker) in r
    ensures (forall j :: i <= j < |s| ==> s[j] != marker) ==> r == []
    decreases |s| - i
  {
    match NextMark(s, i, marker)
    case None => []
    case Some(k) => [TagAt(s, k, marker)] + TagsFrom(s, TagEnd(s, k, marker), marker)
  }

  /** Every position from `i` on where the pattern matches, in increasing
      order: the reference the successive `find()` calls are checked
      against. */
  function MarkPositions(s: string, i: nat, marker: char): seq<int>
    requires i <= |s|
    decreases |s| - i
  {
    if i == |s| then []
    else (if MarkedAt(s, i, marker) then [i] else []) + MarkPositions(s, i + 1, marker)
  }

  /** `MarkPositions` lists every match from `i` on and nothing else, in
      increasing order. */
  lemma {:induction false} MarkPositionsComplete(s: string, i: nat, marker: char)
    requires i <= |s|
    ensures forall n :: 0 <= n < |MarkPositions(s, i, marker)| ==>
      i <= MarkPositions(s, i, marker)[n] < |s| && MarkedAt(s, MarkPositions(s, i, marker)[n], marker)
    ensures forall n, m :: 0 <= n < m < |MarkPositions(s, i, marker)| ==>
      MarkPositions(s, i, marker)[n] < MarkPositions(s, i, marker)[m]
    ensures forall j :: i <= j < |s| && MarkedAt(s, j, marker) ==> j in MarkPositions(s, i, marker)
    decreases |s| - i
  {
    if i < |s| {
      MarkPositionsComplete(s, i + 1, marker);
      var r := MarkPositions(s, i, marker);
      var rest := MarkPositions(s, i + 1, marker);
      assert r == (if MarkedAt(s, i, marker) then [i] else []) + rest;
      PositionsStep(s, i, marker, r, rest);
    }
  }

  /** One step of `MarkPositionsComplete`: the positions from `i` are the
      match at `i`, if any, in front of the positions from `i + 1`. */
  lemma PositionsStep(s: string, i: nat, marker: char, r: seq<int>, rest: seq<int>)
    requires i < |s| && r == (if MarkedAt(s, i, marker) then [i] else []) + rest
    requires forall n :: 0 <= n < |rest| ==> i + 1 <= rest[n] < |s| && MarkedAt(s, rest[n], marker)
    requires forall n, m :: 0 <= n < m < |rest| ==> rest[n] < rest[m]
    requires forall j :: i + 1 <= j < |s| && MarkedAt(s, j, marker) ==> j in rest
    ensures forall n :: 0 <= n < |r| ==> i <= r[n] < |s| && MarkedAt(s, r[n], marker)
    ensures forall n, m :: 0 <= n < m < |r| ==> r[n] < r[m]
    ensures forall j :: i <= j < |s| && MarkedAt(s, j, marker) ==> j in r
  {
  }

  /** Skipping a stretch without matches leaves the positions unchanged. */
  lemma {:induction false} MarkPositionsSkip(s: string, i: nat, k: nat, marker: char)
    requires i <= k <= |s|
    requires forall j :: i <= j < k ==> !MarkedAt(s, j, marker)
    ensures MarkPositions(s, i, marker) == MarkPositions(s, k, marker)
    decreases k - i
  {
    if i < k {
      MarkPositionsSkip(s, i + 1, k, marker);
      assert MarkPositions(s, i, marker) == [] + MarkPositions(s, i + 1, marker);
    }
  }

  /** The hashtag loop finds every match: its `n`-th group is the tag after
      the `n`-th marked position, so repeated tags are all kept, in order. */
  lemma {:induction false} TagsFromPositions(s: string, i: nat, marker: char)
    requires i <= |s| && !IsTagChar(marker)
    ensures var r := TagsFrom(s, i, marker); var p := MarkPositions(s, i, marker);
      |r| == |p| && forall n :: 0 <= n < |r| ==> MarkedAt(s, p[n], marker) && r[n] == TagAt(s, p[n], marker)
    decreases |s| - i, 1
  {
    match NextMark(s, i, marker)
    case None =>
      MarkPositionsSkip(s, i, |s|, marker);
    case Some(k) =>
      TagsFromPositionsAt(s, i, marker, k);
  }

  /** `TagsFromPositions` when the next match is at `k`. */
  lemma {:induction false} TagsFromPositionsAt(s: string, i: nat, marker: char, k: nat)
    requires i <= |s| && !IsTagChar(marker) && NextMark(s, i, marker) == Some(k)
    ensures var r := TagsFrom(s, i, marker); var p := MarkPositions(s, i, marker);
      |r| == |p| && forall n :: 0 <= n < |r| ==> MarkedAt(s, p[n], marker) && r[n] == TagAt(s, p[n], marker)
    decreases |s| - i, 0
  {
    var next := TagEnd(s, k, marker);
    TagsFromPositions(s, next, marker);
    MarkPositionsAt(s, i, marker, k);
    ZipCons(s, marker, TagsFrom(s, i, marker), MarkPositions(s, i, marker), TagAt(s, k, marker), k,
      TagsFrom(s, next, marker), MarkPositions(s, next, marker));
  }

  lemma ZipCons(s: string, marker: char, r: seq<string>, p: seq<int>, t: string, k: nat, rest: seq<string>, q: seq<int>)
    requires r == [t] + rest && p == [k] + q
    requires MarkedAt(s, k, marker) && t == TagAt(s, k, marker)
    requires forall n :: 0 <= n < |q| ==> MarkedAt(s, q[n], marker)
    requires |rest| == |q| && forall n :: 0 <= n < |rest| ==> rest[n] == TagAt(s, q[n], marker)
    ensures |r| == |p| && forall n :: 0 <= n < |r| ==> MarkedAt(s, p[n], marker) && r[n] == TagAt(s, p[n], marker)
  {
    forall n | 0 <= n < |r|
      ensures MarkedAt(s, p[n], marker) && r[n] == TagAt(s, p[n], marker)
    {
      if n > 0 {
        assert r[n] == rest[n - 1] && p[n] == q[n - 1];
      }
    }
  }

  /** The marked positions from `i` are the next match `k` followed by
      the positions after its tag. */
  lemma {:induction false} MarkPositionsAt(s: string, i: nat, marker: char, k: nat)
    requires i <= |s| && !IsTagChar(marker) && NextMark(s, i, marker) == Some(k)
    ensures MarkPositions(s, i, marker) == [k] + MarkPositions(s, TagEnd(s, k, marker), marker)
  {
    MarkPositionsSkip(s, i, k, marker);
    MarkPositionsFromMark(s, marker, k);
  }

  /** From a match at `k`, the positions are `k` and those after its tag. */
  lemma {:induction false} MarkPositionsFromMark(s: string, marker: char, k: nat)
    requires !IsTagChar(marker) && MarkedAt(s, k, marker)
    ensures MarkPositions(s, k, marker) == [k] + MarkPositions(s, TagEnd(s, k, marker), marker)
  {
    var next := TagEnd(s, k, marker);
    MarkPositionsSkip(s, k + 1, next, marker);
    var here, after := MarkPositions(s, k, marker), MarkPositions(s, k + 1, marker);
    assert here == [k] + after;
    assert after == MarkPositions(s, next, marker);
  }

  /** The hashtag loop's title edits: every `#tag` cut out in turn. */
  function StripTags(title: string, tags: seq<string>, marker: char): (r: string)
    ensures |r| <= |title|
    decreases |tags|
  {
    if |tags| == 0 then title else StripTags(Strip(title, [marker] + tags[0]), tags[1..], marker)
  }

  // ---------------------------------------------------------------------
  // parse

  /** The start of the parse: the whole input as the title. */
  function Initial(input: string): TodoParseResult {
    TodoParseResult(input, None, None, NONE, [], None)
  }

  function TimeStage(input: string, p: TodoParseResult): (r: TodoParseResult)
    ensures r == p.(title := r.title, dueTime := r.dueTime)
    ensures |r.title| <= |p.title|
    ensures FindTime(input, 0).None? ==> r == p
    ensures FindTime(input, 0).Some? ==>
      r.dueTime == Some(FormatTime(TimeMatchAt(input, FindTime(input, 0).value)))
  {
    match FindTime(input, 0)
    case None => p
    case Some(i) =>
      var m := TimeMatchAt(input, i);
      p.(dueTime := Some(FormatTime(m)), title := Strip(p.title, m.text))
  }

  /** Every hashtag of `input`, in order. */
  function Hashtags(input: string): seq<string> {
    TagsFrom(input, 0, '#')
  }

  function TagStage(input: string, p: TodoParseResult): (r: TodoParseResult)
    ensures r == p.(title := r.title, tags := Hashtags(input))
    ensures |r.title| <= |p.title|
  {
    var tags := Hashtags(input);
    p.(tags := tags, title := StripTags(p.title, tags, '#'))
  }

  function MentionStage(input: string, p: TodoParseResult): (r: TodoParseResult)
    ensures r == p.(title := r.title, goalName := r.goalName)
    ensures |r.title| <= |p.title|
    ensures NextMark(input, 0, '@').None? ==> r == p
    ensures NextMark(input, 0, '@').Some? ==> r.goalName == Some(TagAt(input, NextMark(input, 0, '@').value, '@'))
  {
    match NextMark(input, 0, '@')
    case None => p
    case Some(k) =>
      var g := TagAt(input, k, '@');
      p.(goalName := Some(g), title := Strip(p.title, ['@'] + g))
  }

  /** The three keyword tables the parse consults. */
  datatype Tables = Tables(dates: seq<(string, int)>, days: seq<(string, int)>, marks: seq<(string, Priority)>)

  const SourceTables: Tables := Tables(DateKeywords, Weekdays, PriorityKeywords)

  /** The stages of `parse` before the whitespace clean-up: time, date
      keywords, weekdays, priority keywords, hashtags, the first mention. */
  function Stages(input: string, today: LocalDate, k: Tables): (r: TodoParseResult)
    ensures |r.title| <= |input|
  {
    MentionStage(input, TagStage(input, PriorityStep(input, k.marks,
      WeekdayStep(input, today, k.days, DateKeywordStep(input, today, k.dates,
        TimeStage(input, Initial(input)))))))
  }

  /** The final clean-up: whitespace runs collapsed, then trimmed. */
  function Finish(p: TodoParseResult): (r: TodoParseResult)
    ensures r == p.(title := r.title)
    ensures |r.title| <= |p.title|
    ensures Trimmed(r.title) && NoSpaceRun(r.title)
  {
    TrimNoSpaceRun(CollapseSpaces(p.title));
    p.(title := Trim(CollapseSpaces(p.title)))
  }

  /** `parse` over given keyword tables. */
  function ParseWith(input: string, today: LocalDate, k: Tables): (r: TodoParseResult)
    ensures |r.title| <= |input|
    ensures Trimmed(r.title) && NoSpaceRun(r.title)
  {
    Finish(Stages(input, today, k))
  }

  /** `parse` as written. */
  function ParseAsWritten(input: string, today: LocalDate): (r: TodoParseResult)
    ensures |r.title| <= |input|
    ensures Trimmed(r.title) && NoSpaceRun(r.title)
  {
    ParseWith(input, today, SourceTables)
  }

  /** Every weekday entry carries an ISO day number. */
  lemma WeekdayNumber(j: int)
    requires 0 <= j < |Weekdays|
    ensures 1 <= Weekdays[j].1 <= 7
  {
  }

  /** The due date the two date loops evidently mean: each loop uses only
      its first entry found, as the comment on its `return@forEach` says,
      and a weekday name still overrides a date keyword. */
  function DueDateOf(input: string, today: LocalDate): (r: Option<string>)
    ensures r.None? <==>
      (forall j :: 0 <= j < |Weekdays| ==> !Contains(input, Weekdays[j].0))
      && (forall j :: 0 <= j < |DateKeywords| ==> !Contains(input, DateKeywords[j].0))
    ensures FirstHit(input, Weekdays).Some? ==>
      var day := Weekdays[FirstHit(input, Weekdays).value].1;
      var n := DaysUntil(day, Weekday(today));
      && r == Some(ToString(PlusDays(today, n)))
      && 1 <= n <= 7 && Weekday(PlusDays(today, n)) == day
      && forall m :: 1 <= m < n ==> Weekday(PlusDays(today, m)) != day
    ensures FirstHit(input, Weekdays).None? && FirstHit(input, DateKeywords).Some? ==>
      r == Some(ToString(PlusDays(today, DateKeywords[FirstHit(input, DateKeywords).value].1)))
  {
    match FirstHit(input, Weekdays)
    case Some(j) =>
      WeekdayNumber(j);
      NextWeekday(today, Weekdays[j].1);
      Some(ToString(PlusDays(today, DaysUntil(Weekdays[j].1, Weekday(today)))))
    case None =>
      match FirstHit(input, DateKeywords)
      case Some(j) => Some(ToString(PlusDays(today, DateKeywords[j].1)))
      case None => None
  }

  /** `parse` with the priority and the due date the keyword tables
      evidently mean; every other field is the source's. */
  function Parse(input: string, today: LocalDate): (r: TodoParseResult)
    ensures r == ParseAsWritten(input, today).(priority := r.priority, dueDate := r.dueDate)
    ensures r.priority == PriorityOf(input)
    ensures r.dueDate == DueDateOf(input, today)
  {
    ParseAsWritten(input, today).(priority := PriorityOf(input), dueDate := DueDateOf(input, today))
  }

  /** A due time found in `input`: none exactly when no time matches,
      otherwise the first match, formatted. */
  predicate TimeOf(input: string, t: Option<string>) {
    && (t.None? <==> forall j :: 0 <= j < |input| ==> !TimeAt(input, j))
    && (FindTime(input, 0).Some? ==> t == Some(FormatTime(TimeMatchAt(input, FindTime(input, 0).value))))
  }

  /** A goal mention found in `input`: none exactly when no `@` starts a
      word, otherwise the word after the first one. */
  predicate MentionOf(input: string, g: Option<string>) {
    && (g.None? <==> forall j :: 0 <= j < |input| ==> !MarkedAt(input, j, '@'))
    && (g.Some? ==> exists j :: 0 <= j < |input| && MarkedAt(input, j, '@') && g.value == TagAt(input, j, '@'))
    && (NextMark(input, 0, '@').Some? ==> g == Some(TagAt(input, NextMark(input, 0, '@').value, '@')))
  }

  /** The due time, tags and goal mention of a parse in terms of the input. */
  lemma ParseWithFields(input: string, today: LocalDate, k: Tables)
    ensures var r := ParseWith(input, today, k);
      TimeOf(input, r.dueTime) && r.tags == Hashtags(input) && MentionOf(input, r.goalName)
  {
    ParseWithTime(input, today, k);
    ParseWithMention(input, today, k);
  }

  lemma ParseWithTime(input: string, today: LocalDate, k: Tables)
    ensures var r := ParseWith(input, today, k); var m := FindTime(input, 0);
      && (r.dueTime.None? <==> m.None?)
      && (m.Some? ==> r.dueTime == Some(FormatTime(TimeMatchAt(input, m.value))))
  {
  }

  lemma ParseWithMention(input: string, today: LocalDate, k: Tables)
    ensures var r := ParseWith(input, today, k); var m := NextMark(input, 0, '@');
      && (r.goalName.None? <==> m.None?)
      && (m.Some? ==> r.goalName == Some(TagAt(input, m.value, '@')))
  {
  }

  /** The due date: the last weekday name found wins; without one, the last
      date keyword found; without either, none. */
  lemma ParseWithDueDate(input: string, today: LocalDate, k: Tables)
    ensures var r := ParseWith(input, today, k);
      && (LastHit(input, k.days).Some? ==>
            r.dueDate == Some(ToString(PlusDays(today, DaysUntil(k.days[LastHit(input, k.days).value].1, Weekday(today))))))
      && (LastHit(input, k.days).None? && LastHit(input, k.dates).Some? ==>
            r.dueDate == Some(ToString(PlusDays(today, k.dates[LastHit(input, k.dates).value].1))))
      && (LastHit(input, k.days).None? && LastHit(input, k.dates).None? ==> r.dueDate.None?)
  {
    var p1 := TimeStage(input, Initial(input));
    var p2 := DateKeywordStep(input, today, k.dates, p1);
    DateKeywordStepDate(input, today, k.dates, p1);
    WeekdayStepDate(input, today, k.days, p2);
  }

  lemma ParseDueDate(input: string, today: LocalDate)
    ensures var r := ParseAsWritten(input, today);
      && (LastHit(input, Weekdays).Some? ==>
            r.dueDate == Some(ToString(PlusDays(today, DaysUntil(Weekdays[LastHit(input, Weekdays).value].1, Weekday(today))))))
      && (LastHit(input, Weekdays).None? && LastHit(input, DateKeywords).Some? ==>
            r.dueDate == Some(ToString(PlusDays(today, DateKeywords[LastHit(input, DateKeywords).value].1))))
      && (LastHit(input, Weekdays).None? && LastHit(input, DateKeywords).None? ==> r.dueDate.None?)
  {
    ParseWithDueDate(input, today, SourceTables);
  }

  /** The priority is that of the last keyword found. */
  lemma ParseWithPriority(input: string, today: LocalDate, k: Tables)
    ensures var r := ParseWith(input, today, k);
      && (LastHit(input, k.marks).None? ==> r.priority == NONE)
      && (LastHit(input, k.marks).Some? ==> r.priority == k.marks[LastHit(input, k.marks).value].1)
  {
    var p1 := TimeStage(input, Initial(input));
    var p2 := DateKeywordStep(input, today, k.dates, p1);
    var p3 := WeekdayStep(input, today, k.days, p2);
    PriorityStepLevel(input, k.marks, p3);
  }

  lemma ParsePriorityAsWritten(input: string, today: LocalDate)
    ensures var r := ParseAsWritten(input, today);
      && (LastHit(input, PriorityKeywords).None? ==> r.priority == NONE)
      && (LastHit(input, PriorityKeywords).Some? ==> r.priority == PriorityKeywords[LastHit(input, PriorityKeywords).value].1)
  {
    ParseWithPriority(input, today, SourceTables);
  }

  /** As written, any `!` in the input ends at LOW, since `!` is the last
      priority keyword and occurs inside `!!` and `!!!`. */
  lemma ExclamationIsLow(input: string, today: LocalDate)
    requires Contains(input, "!")
    ensures ParseAsWritten(input, today).priority == LOW
  {
    assert PriorityKeywords[5] == ("!", LOW);
    ParsePriorityAsWritten(input, today);
  }

  /** The counterexample: `!!!` asks for HIGH, the code as written yields LOW. */
  lemma TripleExclamationAsWritten(input: string, today: LocalDate)
    requires Contains(input, "!!!")
    ensures ParseAsWritten(input, today).priority == LOW
    ensures Parse(input, today).priority == HIGH
  {
    ContainsInner(input, "!!!", 0, 1);
    assert "!!!"[0..1] == "!";
    ExclamationIsLow(input, today);
    PriorityOfMeaning(input);
  }

  /** As written, `내일` (tomorrow) ends at the next Sunday, because the
      weekday name `일` occurs inside it and is the last weekday entry. */
  lemma TomorrowTakenAsSunday(input: string, today: LocalDate)
    requires Contains(input, "내일")
    ensures var d := ParseAsWritten(input, today).dueDate;
      d == Some(ToString(PlusDays(today, DaysUntil(7, Weekday(today)))))
      && Weekday(PlusDays(today, DaysUntil(7, Weekday(today)))) == 7
  {
    ContainsInner(input, "내일", 1, 2);
    assert "내일"[1..2] == "일";
    assert Weekdays[13] == ("일", 7);
    assert LastHit(input, Weekdays) == Some(13);
    ParseDueDate(input, today);
    NextWeekday(today, 7);
  }

  /** Every full weekday name `X요일` has `일`, the last weekday entry,
      as its third character. */
  lemma FullNameEndsInIl(k: int)
    requires 0 <= k < 7
    ensures |Weekdays[k].0| == 3 && Weekdays[k].0[2..3] == "일"
    ensures Weekdays[k].1 == k + 1
    ensures Weekdays[13] == ("일", 7)
  {
  }

  /** The counterexample for the weekday loop: every full weekday name
      contains `일`, so as written it ends at the next Sunday; the
      corrected parse takes the first name found and lands on the named
      day. */
  lemma FullWeekdayNameAsWritten(input: string, today: LocalDate, k: int)
    requires 0 <= k < 7 && Contains(input, Weekdays[k].0)
    requires forall j :: 0 <= j < k ==> !Contains(input, Weekdays[j].0)
    ensures ParseAsWritten(input, today).dueDate == Some(ToString(PlusDays(today, DaysUntil(7, Weekday(today)))))
    ensures Parse(input, today).dueDate == Some(ToString(PlusDays(today, DaysUntil(k + 1, Weekday(today)))))
    ensures Weekday(PlusDays(today, DaysUntil(k + 1, Weekday(today)))) == k + 1
  {
    FullNameTakenAsSunday(input, today, k);
    FullNameCorrected(input, today, k);
  }

  lemma FullNameTakenAsSunday(input: string, today: LocalDate, k: int)
    requires 0 <= k < 7 && Contains(input, Weekdays[k].0)
    ensures ParseAsWritten(input, today).dueDate == Some(ToString(PlusDays(today, DaysUntil(7, Weekday(today)))))
  {
    FullNameEndsInIl(k);
    ContainsInner(input, Weekdays[k].0, 2, 3);
    assert Contains(input, Weekdays[13].0);
    assert LastHit(input, Weekdays) == Some(13);
    ParseDueDate(input, today);
  }

  lemma FullNameCorrected(input: string, today: LocalDate, k: int)
    requires 0 <= k < 7 && Contains(input, Weekdays[k].0)
    requires forall j :: 0 <= j < k ==> !Contains(input, Weekdays[j].0)
    ensures Parse(input, today).dueDate == Some(ToString(PlusDays(today, DaysUntil(k + 1, Weekday(today)))))
    ensures Weekday(PlusDays(today, DaysUntil(k + 1, Weekday(today)))) == k + 1
  {
    FullNameEndsInIl(k);
    assert FirstHit(input, Weekdays) == Some(k);
    NextWeekday(today, k + 1);
  }

  /** As written, the date-keyword loop also keeps the last keyword found:
      with `오늘` (today) and `모레` (in two days) present, no later date
      keyword and no weekday name, the due date is two days ahead. The
      comment on its `return@forEach` asks for the first keyword, today. */
  lemma DateKeywordsLastWins(input: string, today: LocalDate)
    requires Contains(input, "오늘") && Contains(input, "모레")
    requires forall j :: 3 <= j < |DateKeywords| ==> !Contains(input, DateKeywords[j].0)
    requires forall j :: 0 <= j < |Weekdays| ==> !Contains(input, Weekdays[j].0)
    ensures ParseAsWritten(input, today).dueDate == Some(ToString(PlusDays(today, 2)))
  {
    assert DateKeywords[2] == ("모레", 2);
    var last := LastHit(input, DateKeywords);
    assert last.Some? && last.value >= 2 by {
      assert Contains(input, DateKeywords[2].0);
    }
    assert last == Some(2);
    assert LastHit(input, Weekdays).None?;
    ParseDueDate(input, today);
  }

  /** With `오늘` present and no weekday name, the intended due date is today. */
  lemma DateKeywordsFirstWins(input: string, today: LocalDate)
    requires Contains(input, "오늘")
    requires forall j :: 0 <= j < |Weekdays| ==> !Contains(input, Weekdays[j].0)
    ensures Parse(input, today).dueDate == Some(ToString(today))
  {
    assert DateKeywords[0] == ("오늘", 0);
    assert FirstHit(input, DateKeywords) == Some(0) by {
      assert Contains(input, DateKeywords[0].0);
    }
    assert FirstHit(input, Weekdays).None?;
    assert PlusDays(today, 0) == today;
  }

  /** The counterexample: `"오늘 모레"` is due in two days as written, and
      today as the comment intends. */
  lemma DateKeywordLastAsWritten(today: LocalDate)
    ensures ParseAsWritten("오늘 모레", today).dueDate == Some(ToString(PlusDays(today, 2)))
    ensures Parse("오늘 모레", today).dueDate == Some(ToString(today))
  {
    TodayAndDayAfterKeywords();
    DateKeywordsLastWins("오늘 모레", today);
    DateKeywordsFirstWins("오늘 모레", today);
  }

  /** Which keywords `"오늘 모레"` contains: `오늘` and `모레`, no later date
      keyword and no weekday name. */
  lemma TodayAndDayAfterKeywords()
    ensures Contains("오늘 모레", "오늘") && Contains("오늘 모레", "모레")
    ensures forall j :: 3 <= j < |DateKeywords| ==> !Contains("오늘 모레", DateKeywords[j].0)
    ensures forall j :: 0 <= j < |Weekdays| ==> !Contains("오늘 모레", Weekdays[j].0)
  {
    var s := "오늘 모레";
    assert OccursAt(s, "오늘", 0) && OccursAt(s, "모레", 3);
    forall j | 3 <= j < |DateKeywords|
      ensures !Contains(s, DateKeywords[j].0)
    {
      MissingCharNotContained(s, DateKeywords[j].0, 0);
    }
    forall j | 0 <= j < |Weekdays|
      ensures !Contains(s, Weekdays[j].0)
    {
      MissingCharNotContained(s, Weekdays[j].0, 0);
    }
  }

  // ---------------------------------------------------------------------
  // parseTimeDescription

  datatype LocalTime = LocalTime(hour: int, minute: int)

  /** A time of day named by a word; the first rule that applies wins. */
  function ParseTimeDescription(description: string): (r: Option<LocalTime>)
    ensures r.Some? ==> r.value.minute == 0 && r.value.hour in {9, 12, 15, 18, 21}
    ensures r == Some(LocalTime(9, 0)) <==> Contains(description, "아침")
    ensures r == Some(LocalTime(12, 0)) <==> !Contains(description, "아침") && Contains(description, "점심")
    ensures r == Some(LocalTime(15, 0)) <==>
      && !Contains(description, "아침") && !Contains(description, "점심")
      && Contains(description, "오후") && Contains(description, "3")
    ensures r == Some(LocalTime(18, 0)) <==>
      && !Contains(description, "아침") && !Contains(description, "점심")
      && !(Contains(description, "오후") && Contains(description, "3"))
      && Contains(description, "저녁")
    ensures r == Some(LocalTime(21, 0)) <==>
      && !Contains(description, "아침") && !Contains(description, "점심")
      && !(Contains(description, "오후") && Contains(description, "3"))
      && !Contains(description, "저녁") && Contains(description, "밤")
    ensures r.None? <==>
      && !Contains(description, "아침") && !Contains(description, "점심")
      && !(Contains(description, "오후") && Contains(description, "3"))
      && !Contains(description, "저녁") && !Contains(description, "밤")
  {
    if Contains(description, "아침") then Some(LocalTime(9, 0))
    else if Contains(description, "점심") then Some(LocalTime(12, 0))
    else if Contains(description, "오후") && Contains(description, "3") then Some(LocalTime(15, 0))
    else if Contains(description, "저녁") then Some(LocalTime(18, 0))
    else if Contains(description, "밤") then Some(LocalTime(21, 0))
    else None
  }
}
