/** The error taxonomy of the HTTP layer and the usual Option/Result wrappers.
    IllegalArgumentException becomes BadRequest (400), IllegalStateException and a
    violated unique column become Conflict (409), AccessDeniedException becomes
    Forbidden (403), and any other RuntimeException reaches the client as Internal (500). */
module Outcomes {

  datatype Error =
    | BadRequest(message: string)
    | Conflict(message: string)
    | Forbidden(message: string)
    | Internal(message: string)

  datatype Option<+T> = None | Some(value: T)

  datatype Result<+T> = Ok(value: T) | Err(error: Error) {
    predicate IsFailure() { Err? }
    function PropagateFailure<U>(): Result<U> requires Err? { Err(error) }
    function Extract(): T requires Ok? { value }
  }

  /** The result of a `void` operation that may throw. */
  datatype Outcome = Pass | Fail(error: Error) {
    predicate IsFailure() { Fail? }
    function PropagateFailure(): Outcome requires Fail? { this }
  }

  function Need(condition: bool, error: Error): (o: Outcome)
    ensures o.Pass? <==> condition
    ensures o.Fail? ==> o.error == error
  {
    if condition then Pass else Fail(error)
  }
}

/** The few java.lang.String operations the core relies on, over `seq<char>`. */
module Text {

  /** `Character.isWhitespace`: the ASCII controls TAB..CR and FS..US, and the Unicode
      space, line and paragraph separators other than the non-breaking ones. */
  predicate IsWhitespace(c: char) {
    || ('\U{9}' <= c <= '\U{D}')
    || ('\U{1C}' <= c <= '\U{20}')
    || c == '\U{1680}'
    || ('\U{2000}' <= c <= '\U{2006}')
    || ('\U{2008}' <= c <= '\U{200A}')
    || c == '\U{2028}' || c == '\U{2029}' || c == '\U{205F}' || c == '\U{3000}'
  }

  /** `String.isBlank`: empty or whitespace only. */
  predicate IsBlank(s: string) {
    forall i :: 0 <= i < |s| ==> IsWhitespace(s[i])
  }

  /** What `String.trim` strips: every character up to and including U+0020. */
  predicate IsTrimmable(c: char) {
    c <= ' '
  }

  /** Where `String.trim` starts: the first index from `from` on whose character is
      above U+0020. */
  function TrimFirst(s: string, from: nat): (a: nat)
    requires from <= |s|
    ensures from <= a <= |s|
    ensures forall i :: from <= i < a ==> IsTrimmable(s[i])
    ensures a < |s| ==> !IsTrimmable(s[a])
    decreases |s| - from
  {
    if from < |s| && IsTrimmable(s[from]) then TrimFirst(s, from + 1) else from
  }

  /** Where `String.trim` ends: walking back from `to`, but not past `a`, over
      characters at or below U+0020. */
  function TrimLast(s: string, a: nat, to: nat): (b: nat)
    requires a <= to <= |s|
    ensures a <= b <= to
    ensures forall i :: b <= i < to ==> IsTrimmable(s[i])
    ensures b > a ==> !IsTrimmable(s[b - 1])
  {
    if to > a && IsTrimmable(s[to - 1]) then TrimLast(s, a, to - 1) else to
  }

  /** `String.trim`: the longest slice of `s` that neither starts nor ends with a
      character at or below U+0020; everything cut off on either side is such a
      character. */
  function Trim(s: string): (r: string)
    ensures var a := TrimFirst(s, 0);
      && a + |r| <= |s| && r == s[a..a + |r|]
      && (forall i :: 0 <= i < a ==> IsTrimmable(s[i]))
      && (forall i :: a + |r| <= i < |s| ==> IsTrimmable(s[i]))
    ensures r != [] ==> !IsTrimmable(r[0]) && !IsTrimmable(r[|r| - 1])
  {
    var a := TrimFirst(s, 0);
    s[a..TrimLast(s, a, |s|)]
  }

  lemma TrimIdempotent(s: string)
    ensures Trim(Trim(s)) == Trim(s)
  {
    var r := Trim(s);
    assert TrimFirst(r, 0) == 0 && TrimLast(r, 0, |r|) == |r|;
    assert r[0..|r|] == r;
  }

  lemma TrimKeepsInnerCharacters(s: string, i: int)
    requires 0 <= i < |s| && !IsTrimmable(s[i])
    ensures Trim(s) != []
  {
    var a := TrimFirst(s, 0);
    assert a <= i;
    assert i < TrimLast(s, a, |s|);
  }

  /** `Character.toUpperCase` restricted to ASCII letters. */
  function UpperChar(c: char): (u: char)
    ensures 'a' <= c <= 'z' ==> u as int == c as int - 32
    ensures !('a' <= c <= 'z') ==> u == c
  {
    if 'a' <= c <= 'z' then (c as int - 32) as char else c
  }

  /** `Character.toLowerCase` restricted to ASCII letters. */
  function LowerChar(c: char): (l: char)
    ensures 'A' <= c <= 'Z' ==> l as int == c as int + 32
    ensures !('A' <= c <= 'Z') ==> l == c
  {
    if 'A' <= c <= 'Z' then (c as int + 32) as char else c
  }

  /** `String.toUpperCase(Locale.ROOT)` on ASCII. */
  function ToUpper(s: string): (r: string)
    ensures |r| == |s|
    ensures forall i :: 0 <= i < |s| ==> r[i] == UpperChar(s[i])
  {
    if s == [] then [] else [UpperChar(s[0])] + ToUpper(s[1..])
  }

  lemma {:induction false} ToUpperIdempotent(s: string)
    ensures ToUpper(ToUpper(s)) == ToUpper(s)
  {
    var u := ToUpper(s);
    var uu := ToUpper(u);
    assert |uu| == |u|;
    forall i | 0 <= i < |u| ensures uu[i] == u[i] {
      assert u[i] == UpperChar(s[i]);
    }
  }

  /** Two characters are equal for `String.equalsIgnoreCase`. */
  predicate CharEqualsIgnoreCase(c: char, d: char) {
    c == d || UpperChar(c) == UpperChar(d) || LowerChar(c) == LowerChar(d)
  }

  /** `String.equalsIgnoreCase` between two non-null strings. */
  predicate EqualsIgnoreCase(a: string, b: string) {
    |a| == |b| && forall i :: 0 <= i < |a| ==> CharEqualsIgnoreCase(a[i], b[i])
  }

  lemma CharEqualsIgnoreCaseIsUpperEquality(c: char, d: char)
    ensures CharEqualsIgnoreCase(c, d) <==> UpperChar(c) == UpperChar(d)
  {
  }

  lemma EqualsIgnoreCaseIsUpperEquality(a: string, b: string)
    ensures EqualsIgnoreCase(a, b) <==> ToUpper(a) == ToUpper(b)
  {
    var ua, ub := ToUpper(a), ToUpper(b);
    if |a| == |b| {
      forall i | 0 <= i < |a| ensures CharEqualsIgnoreCase(a[i], b[i]) <==> ua[i] == ub[i] {
        CharEqualsIgnoreCaseIsUpperEquality(a[i], b[i]);
      }
      if EqualsIgnoreCase(a, b) {
        assert ua == ub;
      }
    }
  }

  predicate StartsWith(s: string, prefix: string) {
    |prefix| <= |s| && s[..|prefix|] == prefix
  }

  /** The decimal digits of a natural number, most significant first. */
  function DecimalDigits(n: nat): string {
    var digit := (('0' as int) + n % 10) as char;
    if n < 10 then [digit] else DecimalDigits(n / 10) + [digit]
  }

  /** String concatenation of a `long`: its decimal form, with a '-' when negative. */
  function NumberText(n: int): string {
    if n < 0 then "-" + DecimalDigits(-n) else DecimalDigits(n)
  }

  /** `stream().distinct()` and a `LinkedHashSet`: every element once, at the position
      of its first occurrence. */
  function Distinct<T(==)>(s: seq<T>): (r: seq<T>)
  {
    if s == [] then []
    else
      var init := Distinct(s[..|s| - 1]);
      if s[|s| - 1] in s[..|s| - 1] then init else init + [s[|s| - 1]]
  }

  predicate NoDuplicates<T(==)>(s: seq<T>) {
    forall i, j :: 0 <= i < j < |s| ==> s[i] != s[j]
  }

  /** Row ids as a finder returns them: in table order, each once. */
  predicate StrictlyIncreasing(ids: seq<nat>) {
    forall j, k :: 0 <= j < k < |ids| ==> ids[j] < ids[k]
  }

  /** Appending an id above all present ones keeps the ids increasing and keeps
      every present one. */
  lemma AppendAboveKeepsIncreasing(ids: seq<nat>, n: nat)
    requires StrictlyIncreasing(ids) && forall k :: 0 <= k < |ids| ==> ids[k] < n
    ensures StrictlyIncreasing(ids + [n])
    ensures forall i :: i in ids ==> i in ids + [n]
  {
  }

  lemma {:induction false} DistinctSameElements<T>(s: seq<T>)
    ensures forall x :: x in Distinct(s) <==> x in s
  {
    if s != [] {
      DistinctSameElements(s[..|s| - 1]);
      assert s == s[..|s| - 1] + [s[|s| - 1]];
    }
  }

  lemma {:induction false} DistinctHasNoDuplicates<T>(s: seq<T>)
    ensures NoDuplicates(Distinct(s))
  {
    if s != [] {
      DistinctHasNoDuplicates(s[..|s| - 1]);
      DistinctSameElements(s[..|s| - 1]);
    }
  }

  lemma {:induction false} DistinctOfDuplicateFree<T>(s: seq<T>)
    requires NoDuplicates(s)
    ensures Distinct(s) == s
  {
    if s != [] {
      var init := s[..|s| - 1];
      DistinctOfDuplicateFree(init);
      assert s[|s| - 1] !in init;
      assert s == init + [s[|s| - 1]];
    }
  }

  lemma DistinctSnoc<T>(s: seq<T>, x: T)
    ensures Distinct(s + [x]) == if x in s then Distinct(s) else Distinct(s) + [x]
  {
    assert (s + [x])[..|s + [x]| - 1] == s;
  }

  /** The first occurrence of every element keeps its relative order: whenever `x` is
      first seen before `y` in `s`, it also comes before `y` in `Distinct(s)`. */
  lemma {:induction false} DistinctKeepsFirstOccurrenceOrder<T>(s: seq<T>, i: nat, j: nat)
    requires i < j < |s|
    requires s[i] !in s[..i] && s[j] !in s[..j]
    ensures exists p, q :: 0 <= p < q < |Distinct(s)| && Distinct(s)[p] == s[i] && Distinct(s)[q] == s[j]
  {
    var init := s[..|s| - 1];
    if j == |s| - 1 {
      DistinctSameElements(init);
      assert s[i] in init;
      var p :| 0 <= p < |Distinct(init)| && Distinct(init)[p] == s[i];
      assert s[j] !in init;
      var d := Distinct(s);
      assert d == Distinct(init) + [s[j]];
      var q := |Distinct(init)|;
      assert d[p] == Distinct(init)[p] && d[q] == s[j];
      assert 0 <= p < q < |d| && d[p] == s[i] && d[q] == s[j];
    } else {
      assert init[..i] == s[..i] && init[..j] == s[..j];
      DistinctKeepsFirstOccurrenceOrder(init, i, j);
      var p, q :| 0 <= p < q < |Distinct(init)| && Distinct(init)[p] == s[i] && Distinct(init)[q] == s[j];
      assert Distinct(init) == Distinct(s)[..|Distinct(init)|];
    }
  }
}

/** `java.time.LocalDateTime` as whole minutes since a midnight epoch plus the second
    and nanosecond of that minute. The epoch is a midnight, so `MinuteOfHour` and
    `Day` are plain Euclidean remainders and quotients. */
module Clock {

  const NanosPerSecond: int := 1_000_000_000
  const MinutesPerDay: int := 1440

  datatype LocalDateTime = LocalDateTime(epochMinute: int, second: int, nano: int)

  type DateTime = t: LocalDateTime | 0 <= t.second < 60 && 0 <= t.nano < NanosPerSecond
    witness LocalDateTime(0, 0, 0)

  /** The instant on a single nanosecond axis; all comparisons go through it. */
  function Nanos(t: DateTime): int {
    (t.epochMinute * 60 + t.second) * NanosPerSecond + t.nano
  }

  predicate IsBefore(a: DateTime, b: DateTime) { Nanos(a) < Nanos(b) }
  predicate IsAfter(a: DateTime, b: DateTime) { Nanos(a) > Nanos(b) }

  /** `plusMinutes` / `minusMinutes` keep seconds and nanoseconds. */
  function PlusMinutes(t: DateTime, minutes: int): (r: DateTime)
    ensures Nanos(r) == Nanos(t) + minutes * 60 * NanosPerSecond
  {
    LocalDateTime(t.epochMinute + minutes, t.second, t.nano)
  }

  function MinuteOfHour(t: DateTime): (m: int)
    ensures 0 <= m < 60
  {
    t.epochMinute % 60
  }

  /** Java's `/` on `long`: truncation toward zero. */
  function TruncDiv(x: int, d: int): (q: int)
    requires d > 0
    ensures x >= 0 ==> q == x / d
    ensures x < 0 ==> q == -((-x) / d)
  {
    if x >= 0 then x / d else -((-x) / d)
  }

  /** `Duration.between(a, b).getSeconds()`: the floor of the difference in seconds
      (a Duration keeps a non-negative nanosecond part). */
  function DurationSeconds(a: DateTime, b: DateTime): int {
    (Nanos(b) - Nanos(a)) / NanosPerSecond
  }

  /** `Duration.between(a, b).toMinutes()`. */
  function DurationMinutes(a: DateTime, b: DateTime): int {
    TruncDiv(DurationSeconds(a, b), 60)
  }

  /** `Duration.between(a, b).toHours()`. */
  function DurationHours(a: DateTime, b: DateTime): int {
    TruncDiv(DurationSeconds(a, b), 3600)
  }

  /** `toLocalDate()`, as a day number. */
  function Day(t: DateTime): int {
    t.epochMinute / MinutesPerDay
  }

  /** `LocalDate.atTime(hour, minute)`. */
  function AtTime(day: int, hour: int, minute: int): (t: DateTime)
    requires 0 <= hour < 24 && 0 <= minute < 60
    ensures Day(t) == day && t.second == 0 && t.nano == 0
    ensures MinuteOfHour(t) == minute
  {
    LocalDateTime(day * MinutesPerDay + hour * 60 + minute, 0, 0)
  }

  /** For whole-minute date-times after one another, `toMinutes` is the plain
      difference of the minute counts. */
  lemma DurationMinutesOfWholeMinutes(a: DateTime, b: DateTime)
    requires a.second == 0 && a.nano == 0 && b.second == 0 && b.nano == 0
    requires IsAfter(b, a)
    ensures DurationMinutes(a, b) == b.epochMinute - a.epochMinute
  {
    var d := b.epochMinute - a.epochMinute;
    assert Nanos(b) - Nanos(a) == d * 60 * NanosPerSecond;
    assert DurationSeconds(a, b) == d * 60;
  }

  /** `toMinutes` of a positive duration is the number of whole minutes in it. */
  lemma DurationMinutesBounds(a: DateTime, b: DateTime)
    requires !IsBefore(b, a)
    ensures DurationMinutes(a, b) >= 0
    ensures DurationMinutes(a, b) * 60 * NanosPerSecond <= Nanos(b) - Nanos(a)
    ensures Nanos(b) - Nanos(a) < (DurationMinutes(a, b) + 1) * 60 * NanosPerSecond
  {
    var n := Nanos(b) - Nanos(a);
    var s := n / NanosPerSecond;
    assert s * NanosPerSecond <= n < (s + 1) * NanosPerSecond;
    var m := s / 60;
    assert m * 60 <= s < (m + 1) * 60;
    assert m * 60 * NanosPerSecond <= s * NanosPerSecond;
    assert (s + 1) * NanosPerSecond <= (m + 1) * 60 * NanosPerSecond;
  }

  /** `toHours() == 1` holds exactly when the duration is at least one hour and below
      two hours; a negative duration truncates toward zero and never gives 1. */
  lemma {:induction false} DurationHoursIsOne(a: DateTime, b: DateTime)
    ensures DurationHours(a, b) == 1 <==>
      3600 * NanosPerSecond <= Nanos(b) - Nanos(a) < 7200 * NanosPerSecond
  {
    var n := Nanos(b) - Nanos(a);
    var s := n / NanosPerSecond;
    assert s * NanosPerSecond <= n < (s + 1) * NanosPerSecond;
    if 3600 <= s < 7200 {
      assert 3600 * NanosPerSecond <= s * NanosPerSecond;
      assert (s + 1) * NanosPerSecond <= 7200 * NanosPerSecond;
    } else if s >= 7200 {
      assert n >= 7200 * NanosPerSecond;
      assert DurationHours(a, b) >= 2;
    } else if 0 <= s < 3600 {
      assert n < 3600 * NanosPerSecond;
    } else {
      assert n < 0;
      assert DurationHours(a, b) <= 0;
    }
  }
}
