/** frontend/Task-manager/src/utils/helper.js: the validators, the string
    helpers, the completion percentage, the due-date tests, the task sort
    and the status filter. Dates are millisecond timestamps and the clock
    reading `now` is a parameter. */
module Helper {
  import opened Common
  import opened Sorting
  import opened ClientModel

  // ---------------------------------------------------------------------
  // validateEmail: /^[^\s@]+@[^\s@]+\.[^\s@]+$/

  /** A character of the class `[^\s@]`. */
  predicate Plain(c: char) { !IsSpace(c) && c != '@' }

  predicate AllPlain(s: string) { forall k :: 0 <= k < |s| ==> Plain(s[k]) }

  /** The position of the first c in s, if any. */
  function FirstIndexOf(s: string, c: char): (r: Option<nat>)
    ensures r.Some? ==> r.value < |s| && s[r.value] == c && forall k :: 0 <= k < r.value ==> s[k] != c
    ensures r.None? ==> forall k :: 0 <= k < |s| ==> s[k] != c
  {
    FindFirst(s, (x: char) => x == c)
  }

  /** The part after the '@': plain characters with a '.' neither first nor last. */
  predicate DomainShape(d: string) {
    AllPlain(d) && exists j :: 0 < j < |d| - 1 && d[j] == '.'
  }

  function ValidateEmail(email: string): (r: bool)
    ensures r ==> 5 <= |email| && email[0] != '@' && '@' in email
  {
    match FirstIndexOf(email, '@')
    case None => false
    case Some(i) => 0 < i && AllPlain(email[..i]) && DomainShape(email[i + 1..])
  }

  /** The pattern read directly: local part, '@', domain, '.', top-level
      domain, each non-empty and free of white space and '@'. */
  ghost predicate EmailShape(s: string) {
    exists i, j :: 0 < i && i + 1 < j && j + 1 < |s| && s[i] == '@' && s[j] == '.'
      && AllPlain(s[..i]) && AllPlain(s[i + 1..j]) && AllPlain(s[j + 1..])
  }

  lemma ValidateEmailMatchesShape(s: string)
    ensures ValidateEmail(s) <==> EmailShape(s)
  {
    if ValidateEmail(s) {
      ValidEmailHasShape(s);
    }
    if EmailShape(s) {
      var i, j :| 0 < i && i + 1 < j && j + 1 < |s| && s[i] == '@' && s[j] == '.'
        && AllPlain(s[..i]) && AllPlain(s[i + 1..j]) && AllPlain(s[j + 1..]);
      ShapeIsValidEmail(s, i, j);
    }
  }

  lemma ValidEmailHasShape(s: string)
    requires ValidateEmail(s)
    ensures EmailShape(s)
  {
    var i := FirstIndexOf(s, '@').value;
    var d := s[i + 1..];
    var j' :| 0 < j' < |d| - 1 && d[j'] == '.';
    var j := i + 1 + j';
    assert s[i + 1..j] == d[..j'];
    assert s[j + 1..] == d[j' + 1..];
    assert AllPlain(s[i + 1..j]) && AllPlain(s[j + 1..]);
    assert s[j] == '.';
  }

  lemma ShapeIsValidEmail(s: string, i: nat, j: nat)
    requires 0 < i && i + 1 < j && j + 1 < |s| && s[i] == '@' && s[j] == '.'
    requires AllPlain(s[..i]) && AllPlain(s[i + 1..j]) && AllPlain(s[j + 1..])
    ensures ValidateEmail(s)
  {
    FirstAtIsAfterLocalPart(s, i);
    var d := s[i + 1..];
    forall k | 0 <= k < |d| ensures Plain(d[k]) {
      if k + i + 1 < j {
        assert d[k] == s[i + 1..j][k];
      } else if k + i + 1 > j {
        assert d[k] == s[j + 1..][k + i - j];
      }
    }
    assert d[j - i - 1] == '.';
    assert DomainShape(d);
  }

  lemma FirstAtIsAfterLocalPart(s: string, i: nat)
    requires i < |s| && s[i] == '@' && AllPlain(s[..i])
    ensures FirstIndexOf(s, '@') == Some(i)
  {
    forall k | 0 <= k < i ensures s[k] != '@' {
      assert Plain(s[..i][k]);
    }
    var f := FirstIndexOf(s, '@');
    assert f.Some?;
  }

  /** "a@b.co" is accepted; without the '.' after the '@' it is not. */
  lemma EmailExamples()
    ensures ValidateEmail("a@b.co")
    ensures !ValidateEmail("a@bco")
  {
    assert FirstIndexOf("a@b.co", '@') == Some(1);
    assert "a@b.co"[2..] == "b.co";
    assert "b.co"[1] == '.';
    assert DomainShape("b.co");
    assert FirstIndexOf("a@bco", '@') == Some(1);
    assert "a@bco"[2..] == "bco";
    assert forall j :: 0 <= j < 3 ==> "bco"[j] != '.';
  }

  // ---------------------------------------------------------------------
  // validatePassword

  const PasswordTooShort := "Password must be at least 8 characters long"
  const PasswordNoUpper := "Password must contain at least one uppercase letter"
  const PasswordNoLower := "Password must contain at least one lowercase letter"
  const PasswordNoDigit := "Password must contain at least one number"
  const PasswordStrong := "Password is strong"

  datatype PasswordCheck = PasswordCheck(isValid: bool, message: string)

  predicate HasUpper(s: string) { exists i :: 0 <= i < |s| && IsUpper(s[i]) }
  predicate HasLower(s: string) { exists i :: 0 <= i < |s| && IsLower(s[i]) }
  predicate HasDigit(s: string) { exists i :: 0 <= i < |s| && IsDigit(s[i]) }

  /** Eight characters or more with an upper-case letter, a lower-case
      letter and a digit. */
  predicate StrongPassword(s: string) {
    |s| >= 8 && HasUpper(s) && HasLower(s) && HasDigit(s)
  }

  /** Valid exactly for a strong password; otherwise the message of the
      first failing check, in the order length, upper, lower, digit. */
  function ValidatePassword(password: string): (r: PasswordCheck)
    ensures r.isValid <==> StrongPassword(password)
    ensures r.isValid ==> r.message == PasswordStrong
    ensures |password| < 8 ==> r.message == PasswordTooShort
    ensures |password| >= 8 && !HasUpper(password) ==> r.message == PasswordNoUpper
    ensures |password| >= 8 && HasUpper(password) && !HasLower(password) ==> r.message == PasswordNoLower
    ensures |password| >= 8 && HasUpper(password) && HasLower(password) && !HasDigit(password)
            ==> r.message == PasswordNoDigit
  {
    if |password| < 8 then PasswordCheck(false, PasswordTooShort)
    else if !HasUpper(password) then PasswordCheck(false, PasswordNoUpper)
    else if !HasLower(password) then PasswordCheck(false, PasswordNoLower)
    else if !HasDigit(password) then PasswordCheck(false, PasswordNoDigit)
    else PasswordCheck(true, PasswordStrong)
  }

  /** A short password is reported as short whatever else it lacks, and a
      long one with only lower-case letters is reported for the missing
      upper-case letter first. */
  lemma PasswordCheckOrder()
    ensures ValidatePassword("a").message == PasswordTooShort
    ensures ValidatePassword("abcdefgh").message == PasswordNoUpper
    ensures ValidatePassword("Abcdefg1").isValid
  {
    var s := "abcdefgh";
    assert forall i :: 0 <= i < |s| ==> !IsUpper(s[i]);
    var t := "Abcdefg1";
    assert IsUpper(t[0]) && IsLower(t[1]) && IsDigit(t[7]);
  }

  // ---------------------------------------------------------------------
  // getInitials

  /** `s.split(sep)`: the pieces between separators, empty ones included. */
  function Split(s: string, sep: char): (r: seq<string>)
    ensures |r| >= 1
    ensures forall k :: 0 <= k < |r| ==> sep !in r[k]
  {
    if s == [] then [""]
    else
      var rest := Split(s[1..], sep);
      if s[0] == sep then [""] + rest
      else [[s[0]] + rest[0]] + rest[1..]
  }

  /** `pieces.join(sep)`. */
  function Join(pieces: seq<string>, sep: char): string {
    if pieces == [] then ""
    else if |pieces| == 1 then pieces[0]
    else pieces[0] + [sep] + Join(pieces[1..], sep)
  }

  /** Splitting and joining back gives the original string. */
  lemma {:induction false} SplitJoin(s: string, sep: char)
    ensures Join(Split(s, sep), sep) == s
  {
    if s != [] {
      var rest := Split(s[1..], sep);
      SplitJoin(s[1..], sep);
      if s[0] == sep {
        assert Split(s, sep) == [""] + rest;
        assert ([""] + rest)[1..] == rest;
      } else {
        var r := Split(s, sep);
        assert r == [[s[0]] + rest[0]] + rest[1..];
        if |rest| == 1 {
          assert Join(rest, sep) == rest[0];
        } else {
          assert r[1..] == rest[1..];
          assert Join(rest, sep) == rest[0] + [sep] + Join(rest[1..], sep);
        }
        assert s == [s[0]] + s[1..];
      }
    }
  }

  /** A word without a separator followed by a separator splits off first. */
  lemma {:induction false} SplitAfterWord(w: string, sep: char, rest: string)
    requires sep !in w
    ensures Split(w + [sep] + rest, sep) == [w] + Split(rest, sep)
  {
    if w != [] {
      SplitAfterWord(w[1..], sep, rest);
      assert (w + [sep] + rest)[1..] == w[1..] + [sep] + rest;
      assert [w[0]] + w[1..] == w;
    } else {
      assert [] + [sep] + rest == [sep] + rest;
      assert ([sep] + rest)[1..] == rest;
    }
  }

  lemma {:induction false} SplitWord(w: string, sep: char)
    requires sep !in w
    ensures Split(w, sep) == [w]
  {
    if w != [] {
      SplitWord(w[1..], sep);
      assert [w[0]] + w[1..] == w;
    }
  }

  /** A piece of the split that is a word, not the empty string between
      two adjacent spaces. */
  function IsWord(): string -> bool {
    (w: string) => w != []
  }

  /** `.map(word => word.charAt(0)).join('')`: an empty word gives '', so
      the result is the first character of each non-empty word, in order. */
  function FirstChars(words: seq<string>): (r: string)
    ensures |r| == |Filter(words, IsWord())|
    ensures forall k :: 0 <= k < |r| ==> r[k] == Filter(words, IsWord())[k][0]
  {
    if words == [] then ""
    else (if words[0] == [] then "" else [words[0][0]]) + FirstChars(words[1..])
  }

  /** The upper-cased first characters of the first two words of the name,
      fewer when it has fewer words, and '' for a missing or empty name. */
  function GetInitials(name: Option<string>): (r: string)
    ensures |r| <= 2
    ensures forall k :: 0 <= k < |r| ==> !IsLower(r[k])
    ensures !Truthy(name) ==> r == ""
    ensures Truthy(name) ==> var words := Filter(Split(name.value, ' '), IsWord());
      |r| == Min(2, |words|) && forall k :: 0 <= k < |r| ==> r[k] == UpperChar(words[k][0])
  {
    if !Truthy(name) then ""
    else Take(ToUpper(FirstChars(Split(name.value, ' '))), 2)
  }

  /** "John Doe" gives "JD": the first letters of two words, upper-cased. */
  lemma InitialsOfTwoWords(first: string, last: string)
    requires first != [] && last != [] && ' ' !in first && ' ' !in last
    ensures GetInitials(Some(first + " " + last)) == [UpperChar(first[0]), UpperChar(last[0])]
  {
    WordsOfTwoWords(first, last);
  }

  /** Names with the same words have the same initials, however the
      spaces between them are placed. */
  lemma SameWordsSameInitials(x: string, y: string)
    requires x != "" && y != ""
    requires Filter(Split(x, ' '), IsWord()) == Filter(Split(y, ' '), IsWord())
    ensures GetInitials(Some(x)) == GetInitials(Some(y))
  {
    var a, b := GetInitials(Some(x)), GetInitials(Some(y));
    assert |a| == |b|;
    forall k | 0 <= k < |a| ensures a[k] == b[k] {
    }
  }

  /** Two words joined by one space are the two pieces of the split. */
  lemma WordsOfTwoWords(first: string, last: string)
    requires first != [] && last != [] && ' ' !in first && ' ' !in last
    ensures Filter(Split(first + " " + last, ' '), IsWord()) == [first, last]
  {
    SplitAfterWord(first, ' ', last);
    SplitWord(last, ' ');
    assert first + " " + last == first + [' '] + last;
    assert [first, last][1..] == [last];
  }

  /** Two words joined by two spaces have an empty piece between them,
      which is not a word. */
  lemma WordsOfDoubleSpace(first: string, last: string)
    requires first != [] && last != [] && ' ' !in first && ' ' !in last
    ensures Filter(Split(first + "  " + last, ' '), IsWord()) == [first, last]
  {
    var rest := " " + last;
    SplitAfterWord(first, ' ', rest);
    SplitAfterWord("", ' ', last);
    SplitWord(last, ' ');
    assert first + "  " + last == first + [' '] + rest;
    assert "" + [' '] + last == rest;
    var two := [first, "", last];
    assert Split(first + "  " + last, ' ') == two;
    assert two[1..] == ["", last] && two[1..][1..] == [last];
    assert Filter([last], IsWord()) == [last];
    assert Filter(["", last], IsWord()) == [last];
  }

  /** A run of spaces makes empty words, which add no initial. */
  lemma InitialsSkipExtraSpaces(first: string, last: string)
    requires first != [] && last != [] && ' ' !in first && ' ' !in last
    ensures GetInitials(Some(first + "  " + last)) == GetInitials(Some(first + " " + last))
  {
    WordsOfTwoWords(first, last);
    WordsOfDoubleSpace(first, last);
    SameWordsSameInitials(first + "  " + last, first + " " + last);
  }

  // ---------------------------------------------------------------------
  // capitalizeFirst

  /** The first character upper-cased, the rest lower-cased; '' for a
      missing or empty string. */
  function CapitalizeFirst(str: Option<string>): (r: string)
    ensures !Truthy(str) ==> r == ""
    ensures Truthy(str) ==> |r| == |str.value| && r[0] == UpperChar(str.value[0])
    ensures Truthy(str) ==> forall k :: 1 <= k < |r| ==> r[k] == LowerChar(str.value[k])
  {
    if !Truthy(str) then "" else [UpperChar(str.value[0])] + ToLower(str.value[1..])
  }

  /** Capitalizing a capitalized string changes nothing. */
  lemma CapitalizeFirstIdempotent(str: Option<string>)
    ensures CapitalizeFirst(Some(CapitalizeFirst(str))) == CapitalizeFirst(str)
  {
    var c := CapitalizeFirst(str);
    if c != "" {
      var cc := CapitalizeFirst(Some(c));
      assert |cc| == |c|;
      forall k | 0 <= k < |c| ensures cc[k] == c[k] {
        if k == 0 {
          assert !IsLower(c[0]);
        } else {
          assert !IsUpper(c[k]);
        }
      }
    }
  }

  // ---------------------------------------------------------------------
  // truncateText

  const DefaultMaxLength := 50

  /** `text.slice(0, end)`: a negative end counts back from the end. */
  function SliceEnd(len: nat, end: int): (r: nat)
    ensures r <= len
  {
    if end < 0 then Max(0, len + end) else Min(end, len)
  }

  /** The text itself when it fits in maxLength; otherwise its first
      maxLength characters and "...". */
  function TruncateText(text: Option<string>, maxLength: int): (r: string)
    ensures !Truthy(text) ==> r == ""
    ensures Truthy(text) && |text.value| <= maxLength ==> r == text.value
    ensures Truthy(text) && 0 <= maxLength < |text.value| ==> r == text.value[..maxLength] + "..."
    ensures Truthy(text) && maxLength < 0 ==> r == text.value[..Max(0, |text.value| + maxLength)] + "..."
  {
    if !Truthy(text) then ""
    else if |text.value| <= maxLength then text.value
    else text.value[..SliceEnd(|text.value|, maxLength)] + "..."
  }

  /** For a non-negative limit the result has at most maxLength + 3
      characters, and truncating it again with the same limit changes
      nothing. */
  lemma TruncateTextBoundedAndIdempotent(text: Option<string>, maxLength: nat)
    ensures |TruncateText(text, maxLength)| <= maxLength + 3
    ensures TruncateText(Some(TruncateText(text, maxLength)), maxLength) == TruncateText(text, maxLength)
  {
    var r := TruncateText(text, maxLength);
    if Truthy(text) && maxLength < |text.value| {
      assert r[..maxLength] == text.value[..maxLength];
    }
  }

  /** Called without a limit, the default of 50 applies: a text of at most
      50 characters is shown whole, a longer one as its first 50 characters
      and "...", 53 in all. */
  lemma DefaultLimit(text: string)
    ensures |text| <= DefaultMaxLength ==> TruncateText(Some(text), DefaultMaxLength) == text
    ensures |text| > DefaultMaxLength ==>
      |TruncateText(Some(text), DefaultMaxLength)| == DefaultMaxLength + 3
      && TruncateText(Some(text), DefaultMaxLength)[..DefaultMaxLength] == text[..DefaultMaxLength]
  {
    var r := TruncateText(Some(text), DefaultMaxLength);
    if |text| > DefaultMaxLength {
      assert r[..DefaultMaxLength] == text[..DefaultMaxLength];
    }
  }

  // ---------------------------------------------------------------------
  // calculateCompletionPercentage

  function CompletedFlag(): ChecklistItem -> bool {
    (i: ChecklistItem) => i.completed
  }

  /** Rounded share of items whose `completed` flag is set; 0 for a missing
      or empty list. */
  function CalculateCompletionPercentage(todos: Option<seq<ChecklistItem>>): (r: nat)
    ensures 0 <= r <= 100
    ensures todos.None? || todos.value == [] ==> r == 0
    ensures todos.Some? && todos.value != [] ==>
      r == Percent(Count(todos.value, CompletedFlag()), |todos.value|)
  {
    if todos.None? || todos.value == [] then 0
    else
      PercentBounds(Count(todos.value, CompletedFlag()), |todos.value|);
      Percent(Count(todos.value, CompletedFlag()), |todos.value|)
  }

  /** Every item reaches 100, none reaches 0. */
  lemma CompletionExtremes(todos: seq<ChecklistItem>)
    ensures (forall k :: 0 <= k < |todos| ==> todos[k].completed) ==>
      CalculateCompletionPercentage(Some(todos)) == (if todos == [] then 0 else 100)
    ensures (forall k :: 0 <= k < |todos| ==> !todos[k].completed) ==>
      CalculateCompletionPercentage(Some(todos)) == 0
  {
    if forall k :: 0 <= k < |todos| ==> todos[k].completed {
      FilterAll(todos, CompletedFlag());
      PercentBounds(|todos|, |todos|);
    }
    if forall k :: 0 <= k < |todos| ==> !todos[k].completed {
      FilterNone(todos, CompletedFlag());
    }
  }

  /** Items as the server sends them carry `isCompleted`, not `completed`,
      so over them the percentage is 0 however many are done. */
  lemma ServerItemsReadAsIncomplete(items: seq<ChecklistItem>)
    requires forall k :: 0 <= k < |items| ==> items[k] == FromServerItem(items[k].text, items[k].isCompleted)
    ensures CalculateCompletionPercentage(Some(items)) == 0
  {
    CompletionExtremes(items);
  }

  // ---------------------------------------------------------------------
  // isOverdue and isDueSoon

  const ThreeDaysMs := 3 * 24 * 60 * 60 * 1000

  function IsOverdue(dueDate: Option<int>, now: int): (r: bool)
    ensures r <==> dueDate.Some? && dueDate.value < now
  {
    if dueDate.None? then false else dueDate.value < now
  }

  function IsDueSoon(dueDate: Option<int>, now: int): (r: bool)
    ensures r <==> dueDate.Some? && 0 < dueDate.value - now <= ThreeDaysMs
  {
    if dueDate.None? then false
    else dueDate.value > now && dueDate.value - now <= ThreeDaysMs
  }

  /** For one clock reading a date is never both overdue and due soon, and
      a date exactly at `now` is neither. */
  lemma OverdueAndDueSoonExclusive(dueDate: Option<int>, now: int)
    ensures !(IsOverdue(dueDate, now) && IsDueSoon(dueDate, now))
    ensures dueDate == Some(now) ==> !IsOverdue(dueDate, now) && !IsDueSoon(dueDate, now)
  {
  }

  // ---------------------------------------------------------------------
  // sortTasks

  /** `{ high: 3, medium: 2, low: 1 }[p] || 0` */
  function PriorityRank(p: Option<string>): (r: int)
    ensures 0 <= r <= 3
    ensures r == 0 <==> !(p == Some("high") || p == Some("medium") || p == Some("low"))
  {
    if p == Some("high") then 3 else if p == Some("medium") then 2 else if p == Some("low") then 1 else 0
  }

  /** `{ pending: 1, 'in-progress': 2, completed: 3 }[s] || 0` */
  function StatusRank(s: Option<string>): (r: int)
    ensures 0 <= r <= 3
    ensures r == 0 <==> !(s == Some("pending") || s == Some("in-progress") || s == Some("completed"))
  {
    if s == Some("pending") then 1 else if s == Some("in-progress") then 2 else if s == Some("completed") then 3 else 0
  }

  /** The descending-order key: each comparator of the source has the form
      `key(a) - key(b)` for this key. A task without a due date is given
      key 0. */
  function BaseKey(sortBy: string): ClientTask -> int {
    if sortBy == "dueDate" then (t: ClientTask) => t.dueDate.GetOr(0)
    else if sortBy == "priority" then (t: ClientTask) => -PriorityRank(t.priority)
    else if sortBy == "status" then (t: ClientTask) => StatusRank(t.status)
    else (t: ClientTask) => -t.createdAt
  }

  /** 'asc' negates the comparison, that is, the key. */
  function SortKey(sortBy: string, order: string): ClientTask -> int {
    if order == "asc" then (t: ClientTask) => -BaseKey(sortBy)(t) else BaseKey(sortBy)
  }

  /** A new sequence holding the same tasks, ordered by the chosen key;
      the input sequence is a value and is left as it was. */
  function SortTasks(tasks: seq<ClientTask>, sortBy: string, order: string): (r: seq<ClientTask>)
    ensures multiset(r) == multiset(tasks)
    ensures SortedBy(r, SortKey(sortBy, order))
  {
    if tasks == [] then []
    else
      SortByKeySorted(tasks, SortKey(sortBy, order));
      SortByKey(tasks, SortKey(sortBy, order))
  }

  /** Sorting by priority in the default order puts high before medium
      before low before unknown values; by creation time it puts the newest
      first, and 'asc' the oldest first. */
  lemma SortTasksOrders(tasks: seq<ClientTask>)
    ensures var r := SortTasks(tasks, "priority", "desc");
      forall i, j :: 0 <= i < j < |r| ==> PriorityRank(r[i].priority) >= PriorityRank(r[j].priority)
    ensures var r := SortTasks(tasks, "createdAt", "desc");
      forall i, j :: 0 <= i < j < |r| ==> r[i].createdAt >= r[j].createdAt
    ensures var r := SortTasks(tasks, "createdAt", "asc");
      forall i, j :: 0 <= i < j < |r| ==> r[i].createdAt <= r[j].createdAt
  {
    var p := SortTasks(tasks, "priority", "desc");
    forall i, j | 0 <= i < j < |p| ensures PriorityRank(p[i].priority) >= PriorityRank(p[j].priority) {
      assert SortKey("priority", "desc")(p[i]) <= SortKey("priority", "desc")(p[j]);
    }
    var d := SortTasks(tasks, "createdAt", "desc");
    forall i, j | 0 <= i < j < |d| ensures d[i].createdAt >= d[j].createdAt {
      assert SortKey("createdAt", "desc")(d[i]) <= SortKey("createdAt", "desc")(d[j]);
    }
    var a := SortTasks(tasks, "createdAt", "asc");
    forall i, j | 0 <= i < j < |a| ensures a[i].createdAt <= a[j].createdAt {
      assert SortKey("createdAt", "asc")(a[i]) <= SortKey("createdAt", "asc")(a[j]);
    }
  }

  /** Any order other than 'asc' sorts as 'desc'; an unknown criterion
      sorts by creation time. */
  lemma SortTasksDefaults(tasks: seq<ClientTask>, sortBy: string, order: string)
    ensures order != "asc" ==> SortTasks(tasks, sortBy, order) == SortTasks(tasks, sortBy, "desc")
    ensures sortBy !in {"dueDate", "priority", "status"} ==>
      SortTasks(tasks, sortBy, order) == SortTasks(tasks, "createdAt", order)
  {
    if sortBy !in {"dueDate", "priority", "status"} {
      assert "createdAt"[0] != "dueDate"[0] && "createdAt"[0] != "priority"[0] && "createdAt"[0] != "status"[0];
      assert BaseKey(sortBy) == BaseKey("createdAt");
    }
  }

  // ---------------------------------------------------------------------
  // filterTasksByStatus

  /** `task.status?.toLowerCase() === status.toLowerCase()` */
  function StatusMatches(status: string): ClientTask -> bool {
    (t: ClientTask) => t.status.Some? && ToLower(t.status.value) == ToLower(status)
  }

  /** The tasks themselves for a missing or empty status or 'all'; otherwise
      the tasks whose status equals it up to letter case, in order. */
  function FilterTasksByStatus(tasks: seq<ClientTask>, status: Option<string>): (r: seq<ClientTask>)
    ensures !Truthy(status) || status.value == "all" ==> r == tasks
    ensures Truthy(status) && status.value != "all" ==>
      && IsSubsequence(r, tasks)
      && (forall k :: 0 <= k < |r| ==> StatusMatches(status.value)(r[k]))
      && (forall k :: 0 <= k < |tasks| && StatusMatches(status.value)(tasks[k]) ==> tasks[k] in r)
  {
    if !Truthy(status) || status.value == "all" then tasks
    else
      FilterIsSubsequence(tasks, StatusMatches(status.value));
      Filter(tasks, StatusMatches(status.value))
  }

  /** The comparison ignores letter case on both sides. */
  lemma FilterTasksByStatusIgnoresCase(tasks: seq<ClientTask>)
    ensures FilterTasksByStatus(tasks, Some("Completed")) == FilterTasksByStatus(tasks, Some("completed"))
  {
    assert ToLower("Completed") == ToLower("completed") by {
      assert forall i :: 0 <= i < 9 ==> LowerChar("Completed"[i]) == LowerChar("completed"[i]);
    }
    assert StatusMatches("Completed") == StatusMatches("completed");
  }

  // ---------------------------------------------------------------------
  // getAvatarColor

  const AvatarColors := [
    "from-blue-500 to-blue-600",
    "from-purple-500 to-purple-600",
    "from-green-500 to-green-600",
    "from-red-500 to-red-600",
    "from-yellow-500 to-yellow-600",
    "from-pink-500 to-pink-600",
    "from-indigo-500 to-indigo-600",
    "from-teal-500 to-teal-600"]

  /** `charCodeAt(0)`: the first UTF-16 code unit, a high surrogate for a
      character beyond U+FFFF. */
  function FirstCodeUnit(c: char): (r: nat)
    ensures r <= 0xFFFF
  {
    if c as int <= 0xFFFF then c as int else 0xD800 + (c as int - 0x10000) / 0x400
  }

  /** One of the eight gradients, chosen by the first code unit modulo 8;
      the first one for a missing or empty name. */
  function GetAvatarColor(name: Option<string>): (r: string)
    ensures r in AvatarColors
    ensures !Truthy(name) ==> r == AvatarColors[0]
  {
    if !Truthy(name) then AvatarColors[0] else AvatarColors[FirstCodeUnit(name.value[0]) % |AvatarColors|]
  }

  /** The colour depends on the first character only: names starting with
      the same character share it, and "Alice" ('A' is 65) gets the second. */
  lemma AvatarColorByFirstCharacter(a: string, b: string)
    requires a != [] && b != [] && a[0] == b[0]
    ensures GetAvatarColor(Some(a)) == GetAvatarColor(Some(b))
    ensures GetAvatarColor(Some("Alice")) == AvatarColors[1]
  {
  }
}
