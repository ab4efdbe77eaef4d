/**
 * `TimeResolver`: Korean and English date and time phrases turned into a
 * date-time in Asia/Seoul. The text is lower-cased; the date comes from the
 * first keyword rule that matches, otherwise from a weekday name; the time
 * from the first of four time patterns that matches, 09:00 when none does.
 */
module TimeResolver {
  import opened Wrappers
  import opened Text
  import opened Calendar
  import opened Patterns

  /** `weekdayMap`, in declaration order: the Korean day characters, then the English names. */
  const WeekdayMap: seq<(string, DayOfWeek)> := [
    ("월", MONDAY), ("화", TUESDAY), ("수", WEDNESDAY), ("목", THURSDAY),
    ("금", FRIDAY), ("토", SATURDAY), ("일", SUNDAY),
    ("monday", MONDAY), ("tuesday", TUESDAY), ("wednesday", WEDNESDAY), ("thursday", THURSDAY),
    ("friday", FRIDAY), ("saturday", SATURDAY), ("sunday", SUNDAY)]

  /** The first `weekdayMap` entry at index `from` or later whose key occurs in `n`. */
  function FirstWeekdayEntry(n: string, from: nat): (r: Option<nat>)
    requires from <= |WeekdayMap|
    ensures r.Some? ==> from <= r.value < |WeekdayMap| && Contains(n, WeekdayMap[r.value].0)
    ensures r.Some? ==> forall j | from <= j < r.value :: !Contains(n, WeekdayMap[j].0)
    ensures r.None? ==> forall j | from <= j < |WeekdayMap| :: !Contains(n, WeekdayMap[j].0)
    decreases |WeekdayMap| - from
  {
    if from == |WeekdayMap| then None
    else if Contains(n, WeekdayMap[from].0) then Some(from)
    else FirstWeekdayEntry(n, from + 1)
  }

  /** `weekdayMap[key]`: the day of the first entry whose key is `key`. */
  function WeekdayOf(key: string, from: nat := 0): (r: Option<DayOfWeek>)
    requires from <= |WeekdayMap|
    ensures r.Some? ==> exists k | from <= k < |WeekdayMap| :: WeekdayMap[k] == (key, r.value)
    ensures r.None? ==> forall k | from <= k < |WeekdayMap| :: WeekdayMap[k].0 != key
    decreases |WeekdayMap| - from
  {
    if from == |WeekdayMap| then None
    else if WeekdayMap[from].0 == key then Some(WeekdayMap[from].1)
    else WeekdayOf(key, from + 1)
  }

  /** The regular expressions of `findWeekday` and `parseTime`. */
  datatype Pattern =
    | ColonTime          // (\d{1,2}):(\d{2})
    | MeridiemTime       // (am|pm)\s*(\d{1,2})(:(\d{2}))?
    | KoreanMeridiemTime // (오전|오후)\s*(\d{1,2})시(\d{1,2})?분?
    | KoreanHour         // (\d{1,2})시
    | KoreanNextWeekday  // 다음주\s*([월화수목금토일])
    | EnglishNextWeekday // next week\s*(monday|tuesday|…|sunday)

  /** The character class `[월화수목금토일]`. */
  predicate IsKoreanDay(c: char) {
    c == '월' || c == '화' || c == '수' || c == '목' || c == '금' || c == '토' || c == '일'
  }

  /**
   * The shape of `groupValues` for a match of `p`: group 0 is the whole
   * match, a group that took part holds what it matched, and one that did
   * not holds "".
   */
  predicate Shaped(p: Pattern, g: seq<string>) {
    match p
    case ColonTime =>
      |g| == 3 && IsDigits(g[1]) && 1 <= |g[1]| <= 2 && IsDigits(g[2]) && |g[2]| == 2
    case MeridiemTime =>
      |g| == 5 && (g[1] == "am" || g[1] == "pm") && IsDigits(g[2]) && 1 <= |g[2]| <= 2
      && IsDigits(g[4]) && (|g[4]| == 0 || |g[4]| == 2)
    case KoreanMeridiemTime =>
      |g| == 4 && (g[1] == "오전" || g[1] == "오후") && IsDigits(g[2]) && 1 <= |g[2]| <= 2
      && IsDigits(g[3]) && |g[3]| <= 2
    case KoreanHour =>
      |g| == 2 && IsDigits(g[1]) && 1 <= |g[1]| <= 2
    case KoreanNextWeekday =>
      |g| == 2 && |g[1]| == 1 && IsKoreanDay(g[1][0])
    case EnglishNextWeekday =>
      |g| == 2 && exists k | 7 <= k < |WeekdayMap| :: WeekdayMap[k].0 == g[1]
  }

  /**
   * Where the groups of a match of `p` that starts at index `i` sit: the
   * whole match (group 0) occurs at `i`, built from the other groups and the
   * pattern's literal pieces, with `sp` what a `\s*` took.
   */
  ghost predicate Placed(p: Pattern, n: string, i: int, g: seq<string>) {
    Shaped(p, g) && OccursAt(n, g[0], i) &&
    match p
    case ColonTime => g[0] == g[1] + ":" + g[2]
    case MeridiemTime =>
      ((g[3] == "" && g[4] == "") || (|g[4]| == 2 && g[3] == ":" + g[4]))
      && exists sp | IsSpaceRun(sp) :: g[0] == g[1] + sp + g[2] + g[3]
    case KoreanMeridiemTime =>
      exists sp | IsSpaceRun(sp) ::
        g[0] == g[1] + sp + g[2] + "시" + g[3] || g[0] == g[1] + sp + g[2] + "시" + g[3] + "분"
    case KoreanHour => g[0] == g[1] + "시"
    case KoreanNextWeekday => exists sp | IsSpaceRun(sp) :: g[0] == "다음주" + sp + g[1]
    case EnglishNextWeekday => exists sp | IsSpaceRun(sp) :: g[0] == "next week" + sp + g[1]
  }

  /** The four patterns of `parseTime`. */
  predicate IsTimePattern(p: Pattern) {
    p.ColonTime? || p.MeridiemTime? || p.KoreanMeridiemTime? || p.KoreanHour?
  }

  function ColonAt(n: string, i: nat): (r: Option<seq<string>>)
    requires i <= |n|
    ensures r.Some? ==> Placed(ColonTime, n, i, r.value)
  {
    var k := Digits12(n, i);
    var e := i + k;
    if k >= 1 && CharAt(n, e, ':') && DigitAt(n, e + 1) && DigitAt(n, e + 2) then
      var g := [n[i..e + 3], n[i..e], n[e + 1..e + 3]];
      assert IsDigits(g[2]) by {
        assert g[2][0] == n[e + 1] && g[2][1] == n[e + 2];
      }
      assert g[0] == g[1] + ":" + g[2];
      Some(g)
    else None
  }

  function MeridiemAt(n: string, i: nat): (r: Option<seq<string>>)
    requires i <= |n|
    ensures r.Some? ==> Placed(MeridiemTime, n, i, r.value)
  {
    if !(OccursAt(n, "am", i) || OccursAt(n, "pm", i)) then None
    else
      var j := SkipSpaces(n, i + 2);
      var k := Digits12(n, j);
      if k == 0 then None
      else Some(MeridiemGroups(n, i, j, j + k))
  }

  /** The groups of an am/pm match whose label is at `i` and whose hour digits are `n[j..e]`. */
  function MeridiemGroups(n: string, i: nat, j: nat, e: nat): (g: seq<string>)
    requires i + 2 <= j < e <= |n| && e - j <= 2 && IsDigits(n[j..e])
    requires n[i..i + 2] == "am" || n[i..i + 2] == "pm"
    requires IsSpaceRun(n[i + 2..j])
    ensures Placed(MeridiemTime, n, i, g)
    ensures |g[0]| == e - i + |g[3]|
    ensures g[3] != "" <==> CharAt(n, e, ':') && DigitAt(n, e + 1) && DigitAt(n, e + 2)
  {
    if CharAt(n, e, ':') && DigitAt(n, e + 1) && DigitAt(n, e + 2) then
      MeridiemWithMinutes(n, i, j, e);
      [n[i..e + 3], n[i..i + 2], n[j..e], n[e..e + 3], n[e + 1..e + 3]]
    else
      MeridiemHourOnly(n, i, j, e);
      [n[i..e], n[i..i + 2], n[j..e], "", ""]
  }

  /** An am/pm match that goes on to `:MM`. */
  lemma MeridiemWithMinutes(n: string, i: nat, j: nat, e: nat)
    requires i + 2 <= j < e <= |n| && e - j <= 2 && IsDigits(n[j..e])
    requires n[i..i + 2] == "am" || n[i..i + 2] == "pm"
    requires IsSpaceRun(n[i + 2..j])
    requires CharAt(n, e, ':') && DigitAt(n, e + 1) && DigitAt(n, e + 2)
    ensures Placed(MeridiemTime, n, i, [n[i..e + 3], n[i..i + 2], n[j..e], n[e..e + 3], n[e + 1..e + 3]])
  {
    var g := [n[i..e + 3], n[i..i + 2], n[j..e], n[e..e + 3], n[e + 1..e + 3]];
    var sp := n[i + 2..j];
    assert IsDigits(g[4]) by {
      assert g[4][0] == n[e + 1] && g[4][1] == n[e + 2];
    }
    assert g[3] == ":" + g[4] by {
      SliceSplit(n, e, e + 1, e + 3);
      assert n[e..e + 1] == [n[e]];
    }
    assert g[0] == g[1] + sp + g[2] + g[3] by {
      SliceSplit(n, i, e, e + 3);
      SliceSplit(n, i, j, e);
      SliceSplit(n, i, i + 2, j);
    }
  }

  /** An am/pm match that ends with the hour. */
  lemma MeridiemHourOnly(n: string, i: nat, j: nat, e: nat)
    requires i + 2 <= j < e <= |n| && e - j <= 2 && IsDigits(n[j..e])
    requires n[i..i + 2] == "am" || n[i..i + 2] == "pm"
    requires IsSpaceRun(n[i + 2..j])
    ensures Placed(MeridiemTime, n, i, [n[i..e], n[i..i + 2], n[j..e], "", ""])
  {
    var g := [n[i..e], n[i..i + 2], n[j..e], "", ""];
    var sp := n[i + 2..j];
    assert g[0] == g[1] + sp + g[2] + g[3] by {
      SliceSplit(n, i, j, e);
      SliceSplit(n, i, i + 2, j);
    }
  }

  function KoreanMeridiemAt(n: string, i: nat): (r: Option<seq<string>>)
    requires i <= |n|
    ensures r.Some? ==> Placed(KoreanMeridiemTime, n, i, r.value)
  {
    if !(OccursAt(n, "오전", i) || OccursAt(n, "오후", i)) then None
    else
      var j := SkipSpaces(n, i + 2);
      var k := Digits12(n, j);
      if k == 0 || !CharAt(n, j + k, '시') then None
      else Some(KoreanMeridiemGroups(n, i, j, j + k))
  }

  /** The groups of a 오전/오후 match whose label is at `i`, hour digits `n[j..e]` and `시` at `e`. */
  function KoreanMeridiemGroups(n: string, i: nat, j: nat, e: nat): (g: seq<string>)
    requires i + 2 <= j < e < |n| && e - j <= 2 && IsDigits(n[j..e]) && n[e] == '시'
    requires n[i..i + 2] == "오전" || n[i..i + 2] == "오후"
    requires IsSpaceRun(n[i + 2..j])
    ensures Placed(KoreanMeridiemTime, n, i, g)
    ensures var f := e + 1 + Digits12(n, e + 1);
      |g[0]| == f - i + (if CharAt(n, f, '분') then 1 else 0)
  {
    var f := e + 1 + Digits12(n, e + 1);
    var end := if CharAt(n, f, '분') then f + 1 else f;
    KoreanMeridiemPlaced(n, i, j, e, f, end);
    [n[i..end], n[i..i + 2], n[j..e], n[e + 1..f]]
  }

  /** A 오전/오후 match with minute digits `n[e + 1..f]` that ends at `end`. */
  lemma KoreanMeridiemPlaced(n: string, i: nat, j: nat, e: nat, f: nat, end: nat)
    requires i + 2 <= j < e < |n| && e - j <= 2 && IsDigits(n[j..e]) && n[e] == '시'
    requires n[i..i + 2] == "오전" || n[i..i + 2] == "오후"
    requires IsSpaceRun(n[i + 2..j])
    requires f == e + 1 + Digits12(n, e + 1)
    requires end == if CharAt(n, f, '분') then f + 1 else f
    ensures Placed(KoreanMeridiemTime, n, i, [n[i..end], n[i..i + 2], n[j..e], n[e + 1..f]])
  {
    var g := [n[i..end], n[i..i + 2], n[j..e], n[e + 1..f]];
    var sp := n[i + 2..j];
    SliceParts5(n, i, i + 2, j, e, e + 1, f);
    assert n[e..e + 1] == "시";
    assert n[i..f] == g[1] + sp + g[2] + "시" + g[3];
    if end == f + 1 {
      SliceSplit(n, i, f, end);
      assert n[f..end] == "분";
    }
  }

  function KoreanHourAt(n: string, i: nat): (r: Option<seq<string>>)
    requires i <= |n|
    ensures r.Some? ==> Placed(KoreanHour, n, i, r.value)
  {
    var k := Digits12(n, i);
    if k == 0 || !CharAt(n, i + k, '시') then None
    else
      var g := [n[i..i + k + 1], n[i..i + k]];
      assert g[0] == g[1] + "시";
      Some(g)
  }

  function KoreanNextWeekdayAt(n: string, i: nat): (r: Option<seq<string>>)
    requires i <= |n|
    ensures r.Some? ==> Placed(KoreanNextWeekday, n, i, r.value)
  {
    if !OccursAt(n, "다음주", i) then None
    else
      var j := SkipSpaces(n, i + 3);
      if j < |n| && IsKoreanDay(n[j]) then
        var sp := n[i + 3..j];
        var g := [n[i..j + 1], n[j..j + 1]];
        assert g[0] == "다음주" + sp + g[1];
        Some(g)
      else None
  }

  /** The first English day name, in `weekdayMap` order, that occurs at `j`. */
  function DayNameAt(n: string, j: nat, k: nat := 7): (r: Option<nat>)
    requires 7 <= k <= |WeekdayMap|
    ensures r.Some? ==> k <= r.value < |WeekdayMap| && OccursAt(n, WeekdayMap[r.value].0, j)
    decreases |WeekdayMap| - k
  {
    if k == |WeekdayMap| then None
    else if OccursAt(n, WeekdayMap[k].0, j) then Some(k)
    else DayNameAt(n, j, k + 1)
  }

  function EnglishNextWeekdayAt(n: string, i: nat): (r: Option<seq<string>>)
    requires i <= |n|
    ensures r.Some? ==> Placed(EnglishNextWeekday, n, i, r.value)
  {
    if !OccursAt(n, "next week", i) then None
    else
      var j := SkipSpaces(n, i + 9);
      match DayNameAt(n, j)
      case None => None
      case Some(k) =>
        var g := [n[i..j + |WeekdayMap[k].0|], WeekdayMap[k].0];
        EnglishNextWeekdayPlaced(n, i, j, k, g);
        Some(g)
  }

  /** "next week", spaces and an English day name in a row place the English next-weekday pattern. */
  lemma EnglishNextWeekdayPlaced(n: string, i: nat, j: nat, k: nat, g: seq<string>)
    requires OccursAt(n, "next week", i) && i + 9 <= j <= |n|
    requires forall t | i + 9 <= t < j :: IsRegexSpace(n[t])
    requires 7 <= k < |WeekdayMap| && OccursAt(n, WeekdayMap[k].0, j)
    requires g == [n[i..j + |WeekdayMap[k].0|], WeekdayMap[k].0]
    ensures Placed(EnglishNextWeekday, n, i, g)
  {
    var name := WeekdayMap[k].0;
    var sp := n[i + 9..j];
    assert IsSpaceRun(sp);
    assert Shaped(EnglishNextWeekday, g) by {
      assert WeekdayMap[k].0 == g[1];
    }
    SliceSplit(n, i, i + 9, j);
    SliceSplit(n, i, j, j + |name|);
    assert g[0] == "next week" + sp + g[1];
  }

  /** Does `p` match at index `i`, and with which `groupValues`? */
  function MatchAt(p: Pattern, n: string, i: nat): (r: Option<seq<string>>)
    ensures r.Some? ==> i <= |n| && Placed(p, n, i, r.value)
  {
    if i > |n| then None
    else
      match p
      case ColonTime => ColonAt(n, i)
      case MeridiemTime => MeridiemAt(n, i)
      case KoreanMeridiemTime => KoreanMeridiemAt(n, i)
      case KoreanHour => KoreanHourAt(n, i)
      case KoreanNextWeekday => KoreanNextWeekdayAt(n, i)
      case EnglishNextWeekday => EnglishNextWeekdayAt(n, i)
  }

  // ---------------------------------------------------------------------
  // The matchers against the regular expressions they stand for: a time
  // pattern matches at an index whenever it can be placed there, and then
  // with its longest placement, as the greedy quantifiers choose.

  /** HH:MM can be placed at `i` in one way only, and the matcher finds it. */
  lemma ColonAtComplete(n: string, i: nat, g: seq<string>)
    requires Placed(ColonTime, n, i, g)
    ensures ColonAt(n, i) == Some(g)
  {
    var k := |g[1]|;
    OccursSplit(n, g[1] + ":", g[2], i);
    OccursSplit(n, g[1], ":", i);
    assert n[i] == g[1][0];
    assert k == 1 ==> n[i + 1] == ':';
    assert k == 2 ==> n[i + 1] == g[1][1];
    assert n[i + k] == ':';
    assert n[i + k + 1] == g[2][0] && n[i + k + 2] == g[2][1];
    assert n[i..i + k + 3] == g[0] && n[i..i + k] == g[1] && n[i + k + 1..i + k + 3] == g[2];
    assert [g[0], g[1], g[2]] == g;
  }

  /** An am/pm placement at `i` means a match there, at least as long. */
  lemma MeridiemAtComplete(n: string, i: nat, g: seq<string>)
    requires Placed(MeridiemTime, n, i, g)
    ensures MeridiemAt(n, i).Some? && |g[0]| <= |MeridiemAt(n, i).value[0]|
  {
    var j := MeridiemPlacementBound(n, i, g);
    var rm := MeridiemMatchLength(n, i, j);
  }

  /**
   * An am/pm placement at `i` has the label and spaces the matcher reads up
   * to `j`, and is no longer than the greedy hour digits at `j` and the
   * `:MM` after them when there is one.
   */
  lemma MeridiemPlacementBound(n: string, i: nat, g: seq<string>) returns (j: nat)
    requires Placed(MeridiemTime, n, i, g)
    ensures i <= |n| && (OccursAt(n, "am", i) || OccursAt(n, "pm", i))
    ensures j < |n| && SkipSpaces(n, i + 2) == j && Digits12(n, j) >= 1
    ensures var e := j + Digits12(n, j);
      |g[0]| <= e - i + (if CharAt(n, e, ':') && DigitAt(n, e + 1) && DigitAt(n, e + 2) then 3 else 0)
  {
    var sp := MeridiemPlacedParts(n, i, g);
    j := MeridiemPartsBound(n, i, sp, g);
  }

  /** The bound of `MeridiemPlacementBound`, from the pieces of the placement. */
  lemma MeridiemPartsBound(n: string, i: nat, sp: string, g: seq<string>) returns (j: nat)
    requires IsSpaceRun(sp) && Shaped(MeridiemTime, g)
    requires (g[3] == "" && g[4] == "") || (|g[4]| == 2 && g[3] == ":" + g[4])
    requires OccursAt(n, g[1], i) && OccursAt(n, sp, i + 2) && OccursAt(n, g[2], i + 2 + |sp|)
    requires OccursAt(n, g[3], i + 2 + |sp| + |g[2]|) && |g[0]| == 2 + |sp| + |g[2]| + |g[3]|
    ensures j == i + 2 + |sp|
    ensures i <= |n| && (OccursAt(n, "am", i) || OccursAt(n, "pm", i))
    ensures j < |n| && SkipSpaces(n, i + 2) == j && Digits12(n, j) >= 1
    ensures var e := j + Digits12(n, j);
      |g[0]| <= e - i + (if CharAt(n, e, ':') && DigitAt(n, e + 1) && DigitAt(n, e + 2) then 3 else 0)
  {
    j := i + 2 + |sp|;
    MeridiemMatchFound(n, i, sp, g);
    OptionalMinutesAt(n, j + |g[2]|, g[3], g[4]);
    var e := j + Digits12(n, j);
    GreedyHourAndMinutes(n, j, |g[2]|, |g[3]|, if CharAt(n, e, ':') && DigitAt(n, e + 1) && DigitAt(n, e + 2) then 3 else 0);
  }

  /**
   * A placement with `h` hour digits at `j` and `m` characters of `:MM` after
   * them is no longer than the greedy hour digits and `rm` characters of
   * `:MM` that the matcher takes.
   */
  lemma GreedyHourAndMinutes(n: string, j: nat, h: nat, m: nat, rm: nat)
    requires j <= |n| && Digits12(n, j) >= h && (Digits12(n, j) > h ==> DigitAt(n, j + h))
    requires m == 0 || (m == 3 && CharAt(n, j + h, ':') && DigitAt(n, j + h + 1) && DigitAt(n, j + h + 2))
    requires var e := j + Digits12(n, j);
      (rm == 0 || rm == 3) && (rm != 0 <==> CharAt(n, e, ':') && DigitAt(n, e + 1) && DigitAt(n, e + 2))
    ensures h + m <= Digits12(n, j) + rm
  {
  }

  /** How long the am/pm match at `i` is, once its label, spaces and hour are known. */
  lemma MeridiemMatchLength(n: string, i: nat, j: nat) returns (rm: nat)
    requires i <= |n| && (OccursAt(n, "am", i) || OccursAt(n, "pm", i))
    requires j < |n| && SkipSpaces(n, i + 2) == j && Digits12(n, j) >= 1
    ensures MeridiemAt(n, i).Some? && rm == |MeridiemAt(n, i).value[3]|
    ensures var e := j + Digits12(n, j);
      && |MeridiemAt(n, i).value[0]| == e - i + rm && (rm == 0 || rm == 3)
      && (rm != 0 <==> CharAt(n, e, ':') && DigitAt(n, e + 1) && DigitAt(n, e + 2))
  {
    rm := |MeridiemAt(n, i).value[3]|;
  }

  /** The pieces of an am/pm placement, each at its index. */
  lemma MeridiemPlacedParts(n: string, i: nat, g: seq<string>) returns (sp: string)
    requires Placed(MeridiemTime, n, i, g)
    ensures IsSpaceRun(sp) && Shaped(MeridiemTime, g)
    ensures (g[3] == "" && g[4] == "") || (|g[4]| == 2 && g[3] == ":" + g[4])
    ensures OccursAt(n, g[1], i) && OccursAt(n, sp, i + 2) && OccursAt(n, g[2], i + 2 + |sp|)
    ensures OccursAt(n, g[3], i + 2 + |sp| + |g[2]|) && |g[0]| == 2 + |sp| + |g[2]| + |g[3]|
  {
    sp :| IsSpaceRun(sp) && g[0] == g[1] + sp + g[2] + g[3];
    OccursParts4(n, g[1], sp, g[2], g[3], i);
  }

  /** Where an am/pm placement starts, the matcher reads the same label and spaces, and at least its hour digits. */
  lemma MeridiemMatchFound(n: string, i: nat, sp: string, g: seq<string>)
    requires Shaped(MeridiemTime, g) && IsSpaceRun(sp)
    requires OccursAt(n, g[1], i) && OccursAt(n, sp, i + 2) && OccursAt(n, g[2], i + 2 + |sp|)
    ensures OccursAt(n, "am", i) || OccursAt(n, "pm", i)
    ensures var j := i + 2 + |sp|;
      && j < |n| && SkipSpaces(n, i + 2) == j && Digits12(n, j) >= |g[2]|
      && (Digits12(n, j) > |g[2]| ==> DigitAt(n, j + |g[2]|))
  {
    var j := i + 2 + |sp|;
    assert n[j] == g[2][0];
    SkipSpacesOver(n, i + 2, sp);
    assert |g[2]| == 2 ==> n[j + 1] == g[2][1];
  }

  /** An optional `:MM` found at `d` is either empty or shows as a colon and two digits there. */
  lemma OptionalMinutesAt(n: string, d: int, colon: string, minutes: string)
    requires OccursAt(n, colon, d) && IsDigits(minutes)
    requires (colon == "" && minutes == "") || (|minutes| == 2 && colon == ":" + minutes)
    ensures |colon| == 0 || (|colon| == 3 && CharAt(n, d, ':') && DigitAt(n, d + 1) && DigitAt(n, d + 2))
  {
    if colon != "" {
      assert n[d] == colon[0] && n[d + 1] == colon[1] && n[d + 2] == colon[2];
    }
  }

  /** A 오전/오후 placement at `i` means a match there, at least as long. */
  lemma KoreanMeridiemAtComplete(n: string, i: nat, g: seq<string>)
    requires Placed(KoreanMeridiemTime, n, i, g)
    ensures KoreanMeridiemAt(n, i).Some? && |g[0]| <= |KoreanMeridiemAt(n, i).value[0]|
  {
    var sp, j, e, f := KoreanPlacedParts(n, i, g);
    KoreanMatchFound(n, i, sp, g, j, e);
    MinuteDigitsAt(n, e + 1, g[3], f);
    GreedyMinutes(n, e, f, i + |g[0]|);
    KoreanMatchLength(n, i, j, e);
  }

  /**
   * A placement whose minute digits run from after the `시` at `e` to `f`,
   * and which ends at `end`, ends no later than the greedy `\d{1,2}` and
   * optional `분`.
   */
  lemma GreedyMinutes(n: string, e: nat, f: nat, end: int)
    requires e < |n| && e + 1 <= f && Digits12(n, e + 1) >= f - e - 1
    requires Digits12(n, e + 1) > f - e - 1 ==> DigitAt(n, f)
    requires end == f || (end == f + 1 && CharAt(n, f, '분'))
    ensures var g := e + 1 + Digits12(n, e + 1);
      end <= g + (if CharAt(n, g, '분') then 1 else 0)
  {
  }

  /** How far the 오전/오후 match at `i` reaches, once its label, spaces, hour and `시` at `e` are known. */
  lemma KoreanMatchLength(n: string, i: nat, j: nat, e: nat)
    requires i <= |n| && (OccursAt(n, "오전", i) || OccursAt(n, "오후", i))
    requires j < |n| && SkipSpaces(n, i + 2) == j && Digits12(n, j) >= 1
    requires e == j + Digits12(n, j) && CharAt(n, e, '시')
    ensures KoreanMeridiemAt(n, i).Some?
    ensures var f := e + 1 + Digits12(n, e + 1);
      i + |KoreanMeridiemAt(n, i).value[0]| == f + (if CharAt(n, f, '분') then 1 else 0)
  {
  }

  /** Where minute digits of at most two run from `d` to `f`, greedy `\d{1,2}` takes at least as many. */
  lemma MinuteDigitsAt(n: string, d: nat, minutes: string, f: int)
    requires d <= |n| && OccursAt(n, minutes, d) && IsDigits(minutes) && |minutes| <= 2 && f == d + |minutes|
    ensures Digits12(n, d) >= |minutes|
    ensures Digits12(n, d) > |minutes| ==> DigitAt(n, f)
  {
    assert |minutes| >= 1 ==> n[d] == minutes[0];
    assert |minutes| == 2 ==> n[d + 1] == minutes[1];
    if Digits12(n, d) == 2 {
      assert n[d..d + 2][1] == n[d + 1];
    }
  }

  /** Where a 오전/오후 placement starts, the matcher reads the same label, spaces, hour and `시`. */
  lemma KoreanMatchFound(n: string, i: nat, sp: string, g: seq<string>, j: nat, e: nat)
    requires Shaped(KoreanMeridiemTime, g) && IsSpaceRun(sp)
    requires j == i + 2 + |sp| && e == j + |g[2]|
    requires OccursAt(n, g[1], i) && OccursAt(n, sp, i + 2) && OccursAt(n, g[2], j) && OccursAt(n, "시", e)
    ensures i <= |n| && (OccursAt(n, "오전", i) || OccursAt(n, "오후", i))
    ensures j < |n| && SkipSpaces(n, i + 2) == j && Digits12(n, j) == |g[2]| && Digits12(n, j) >= 1
    ensures e == j + Digits12(n, j) && CharAt(n, e, '시')
  {
    assert n[j] == g[2][0];
    assert n[e] == '시';
    SkipSpacesOver(n, i + 2, sp);
    assert |g[2]| == 2 ==> n[j + 1] == g[2][1];
  }

  /** The pieces of a 오전/오후 placement, each at its index. */
  lemma KoreanPlacedParts(n: string, i: nat, g: seq<string>) returns (sp: string, j: nat, e: nat, f: nat)
    requires Placed(KoreanMeridiemTime, n, i, g)
    ensures IsSpaceRun(sp) && j == i + 2 + |sp| && e == j + |g[2]| && f == e + 1 + |g[3]|
    ensures OccursAt(n, g[1], i) && OccursAt(n, sp, i + 2) && OccursAt(n, g[2], j)
    ensures OccursAt(n, "시", e) && OccursAt(n, g[3], e + 1)
    ensures i + |g[0]| == f || (i + |g[0]| == f + 1 && CharAt(n, f, '분'))
  {
    sp :| IsSpaceRun(sp) && (g[0] == g[1] + sp + g[2] + "시" + g[3] || g[0] == g[1] + sp + g[2] + "시" + g[3] + "분");
    j := i + 2 + |sp|;
    e := j + |g[2]|;
    f := e + 1 + |g[3]|;
    KoreanPieces(n, i, g[1], sp, g[2], g[3], g[0]);
  }

  /** The pieces of `오전/오후 spaces hour 시 minutes [분]` found at `i`, each at its index. */
  lemma KoreanPieces(n: string, i: nat, half: string, sp: string, hour: string, minutes: string, whole: string)
    requires OccursAt(n, whole, i)
    requires whole == half + sp + hour + "시" + minutes || whole == half + sp + hour + "시" + minutes + "분"
    ensures OccursAt(n, half, i) && OccursAt(n, sp, i + |half|) && OccursAt(n, hour, i + |half| + |sp|)
    ensures OccursAt(n, "시", i + |half| + |sp| + |hour|) && OccursAt(n, minutes, i + |half| + |sp| + |hour| + 1)
    ensures var f := i + |half| + |sp| + |hour| + 1 + |minutes|;
      |whole| == f - i || (|whole| == f + 1 - i && CharAt(n, f, '분'))
  {
    var core := half + sp + hour + "시" + minutes;
    if whole == core {
      OccursSplit(n, half + sp + hour + "시", minutes, i);
    } else {
      OccursSplit(n, core, "분", i);
      OccursSplit(n, half + sp + hour + "시", minutes, i);
      assert n[i + |core|] == '분';
    }
    OccursParts4(n, half, sp, hour, "시", i);
  }

  /** N시 can be placed at `i` in one way only, and the matcher finds it. */
  lemma KoreanHourAtComplete(n: string, i: nat, g: seq<string>)
    requires Placed(KoreanHour, n, i, g)
    ensures KoreanHourAt(n, i) == Some(g)
  {
    var k := |g[1]|;
    OccursSplit(n, g[1], "시", i);
    assert n[i] == g[1][0];
    assert k == 1 ==> n[i + 1] == '시';
    assert k == 2 ==> n[i + 1] == g[1][1];
    assert n[i + k] == '시';
    assert n[i..i + k + 1] == g[0] && n[i..i + k] == g[1];
    assert [g[0], g[1]] == g;
  }

  /** A time pattern that can be placed at `i` matches there, with its longest placement. */
  lemma MatchAtComplete(p: Pattern, n: string, i: int, g: seq<string>)
    requires IsTimePattern(p) && Placed(p, n, i, g)
    ensures 0 <= i <= |n| && MatchAt(p, n, i).Some? && |g[0]| <= |MatchAt(p, n, i).value[0]|
  {
    match p
    case ColonTime => ColonAtComplete(n, i, g);
    case MeridiemTime => MeridiemAtComplete(n, i, g);
    case KoreanMeridiemTime => KoreanMeridiemAtComplete(n, i, g);
    case KoreanHour => KoreanHourAtComplete(n, i, g);
  }

  /**
   * `Regex.find` for the four time patterns: null exactly when the pattern
   * can be placed nowhere in the text; otherwise the match starts at the
   * leftmost index where it can be placed, and is the longest placement there.
   */
  lemma FindLeftmostLongest(p: Pattern, n: string)
    requires IsTimePattern(p)
    ensures Find(p, n).None? <==> forall j, g :: !Placed(p, n, j, g)
    ensures Find(p, n).Some? ==>
      var i := FindFrom(p, n, 0).value;
      && Placed(p, n, i, Find(p, n).value)
      && (forall j, g | j < i :: !Placed(p, n, j, g))
      && (forall g | Placed(p, n, i, g) :: |g[0]| <= |Find(p, n).value[0]|)
  {
    forall j, g | Placed(p, n, j, g) ensures MatchAt(p, n, j).Some? && |g[0]| <= |MatchAt(p, n, j).value[0]| {
      MatchAtComplete(p, n, j, g);
    }
  }

  /** The leftmost index at `from` or later where `p` matches. */
  function FindFrom(p: Pattern, n: string, from: nat): (r: Option<nat>)
    requires from <= |n|
    ensures r.Some? ==> from <= r.value <= |n| && MatchAt(p, n, r.value).Some?
    ensures r.Some? ==> forall j | from <= j < r.value :: MatchAt(p, n, j).None?
    ensures r.None? ==> forall j | from <= j <= |n| :: MatchAt(p, n, j).None?
    decreases |n| - from
  {
    if MatchAt(p, n, from).Some? then Some(from)
    else if from == |n| then None
    else FindFrom(p, n, from + 1)
  }

  /** `Regex.find`: the `groupValues` of the match at the leftmost index where there is one, or null. */
  function Find(p: Pattern, n: string): (r: Option<seq<string>>)
    ensures r.None? <==> forall j | 0 <= j <= |n| :: MatchAt(p, n, j).None?
    ensures r.Some? ==> FindFrom(p, n, 0).Some? && r == MatchAt(p, n, FindFrom(p, n, 0).value)
    ensures r.Some? ==> Placed(p, n, FindFrom(p, n, 0).value, r.value)
    ensures r.Some? ==> Shaped(p, r.value)
  {
    match FindFrom(p, n, 0)
    case Some(i) => MatchAt(p, n, i)
    case None => None
  }

  /**
   * The hour after the `pm`/`오후` (`isPm`) or `am`/`오전` adjustment: 12 PM
   * stays 12, 12 AM becomes 0. An afternoon hour is valid exactly up to 12 and
   * lands in 12..23; a morning hour is valid up to 23 and stays below noon
   * when it is at most 12.
   */
  function MeridiemHour(isPm: bool, hour: nat): (h: int)
    ensures 0 <= h < 24 <==> (if isPm then hour <= 12 else hour <= 23)
    ensures isPm && hour <= 12 ==> 12 <= h
    ensures !isPm && hour <= 12 ==> h < 12
    ensures isPm && 1 <= hour <= 11 ==> h == hour + 12
    ensures hour == 12 ==> h == (if isPm then 12 else 0)
    ensures !isPm && hour != 12 ==> h == hour
  {
    if isPm && hour != 12 then hour + 12
    else if !isPm && hour == 12 then 0
    else hour
  }

  /**
   * `parseTime`: the first of HH:MM, am/pm, 오전/오후 N시(M) and N시 that
   * matches anywhere gives the time; `LocalTime.of` rejects an hour or minute
   * out of range.
   */
  function ParseTime(n: string): (r: Result<Option<LocalTime>, DateTimeError>)
    ensures r == Success(None) <==>
      Find(ColonTime, n).None? && Find(MeridiemTime, n).None? && Find(KoreanMeridiemTime, n).None? && Find(KoreanHour, n).None?
    ensures r.Success? && r.value.Some? ==> r.value.value.second == 0 && r.value.value.nano == 0
  {
    match Find(ColonTime, n)
    case Some(g) => WrapTime(ColonClock(g))
    case None =>
      match Find(MeridiemTime, n)
      case Some(g) => WrapTime(MeridiemClock(g))
      case None =>
        match Find(KoreanMeridiemTime, n)
        case Some(g) => WrapTime(KoreanMeridiemClock(g))
        case None =>
          match Find(KoreanHour, n)
          case Some(g) => WrapTime(TimeOf(DigitsValue(g[1]), 0))
          case None => Success(None)
  }

  /** `LocalTime.of(hour, minute)` for an HH:MM match. */
  function ColonClock(g: seq<string>): Result<LocalTime, DateTimeError>
    requires Shaped(ColonTime, g)
  {
    TimeOf(DigitsValue(g[1]), DigitsValue(g[2]))
  }

  /** An am/pm match: the minute is 0 when group 4 is blank. */
  function MeridiemClock(g: seq<string>): Result<LocalTime, DateTimeError>
    requires Shaped(MeridiemTime, g)
  {
    var hour := DigitsValue(g[2]);
    var minute := if IsBlank(g[4]) then 0 else DigitsValue(g[4]);
    TimeOf(MeridiemHour(g[1] == "pm", hour), minute)
  }

  /** A 오전/오후 match: the minute is 0 when group 3 is blank. */
  function KoreanMeridiemClock(g: seq<string>): Result<LocalTime, DateTimeError>
    requires Shaped(KoreanMeridiemTime, g)
  {
    var hour := DigitsValue(g[2]);
    var minute := if IsBlank(g[3]) then 0 else DigitsValue(g[3]);
    TimeOf(MeridiemHour(g[1] == "오후", hour), minute)
  }

  function WrapTime(t: Result<LocalTime, DateTimeError>): (r: Result<Option<LocalTime>, DateTimeError>)
    ensures r.Success? <==> t.Success?
    ensures t.Success? ==> r.value == Some(t.value)
  {
    match t
    case Success(v) => Success(Some(v))
    case Failure(e) => Failure(e)
  }

  /**
   * The four time patterns in priority order: the first that matches decides
   * the time, whatever the later ones would match, and it throws exactly when
   * its hour or minute is out of range (so "25:00" and "pm 13" fail). First,
   * an HH:MM match.
   */
  lemma ParseTimeColon(n: string)
    requires Find(ColonTime, n).Some?
    ensures var g := Find(ColonTime, n).value;
      var (h, m) := (DigitsValue(g[1]), DigitsValue(g[2]));
      (ParseTime(n).Failure? <==> h > 23 || m > 59)
      && (ParseTime(n).Success? ==> ParseTime(n).value == Some(Time(h, m, 0, 0)))
  {
  }

  /** With no HH:MM match, an am/pm match decides the time. */
  lemma ParseTimeMeridiem(n: string)
    requires Find(ColonTime, n).None? && Find(MeridiemTime, n).Some?
    ensures var g := Find(MeridiemTime, n).value;
      var (pm, h, m) := (g[1] == "pm", DigitsValue(g[2]), if IsBlank(g[4]) then 0 else DigitsValue(g[4]));
      (ParseTime(n).Failure? <==> (if pm then h > 12 else h > 23) || m > 59)
      && (ParseTime(n).Success? ==> ParseTime(n).value == Some(Time(MeridiemHour(pm, h), m, 0, 0)))
  {
  }

  /** With no Latin match, a 오전/오후 match decides the time as am/pm does. */
  lemma ParseTimeKoreanMeridiem(n: string)
    requires Find(ColonTime, n).None? && Find(MeridiemTime, n).None? && Find(KoreanMeridiemTime, n).Some?
    ensures var g := Find(KoreanMeridiemTime, n).value;
      var (pm, h, m) := (g[1] == "오후", DigitsValue(g[2]), if IsBlank(g[3]) then 0 else DigitsValue(g[3]));
      (ParseTime(n).Failure? <==> (if pm then h > 12 else h > 23) || m > 59)
      && (ParseTime(n).Success? ==> ParseTime(n).value == Some(Time(MeridiemHour(pm, h), m, 0, 0)))
  {
  }

  /** Last, an N시 match gives N o'clock. */
  lemma ParseTimeKoreanHour(n: string)
    requires Find(ColonTime, n).None? && Find(MeridiemTime, n).None? && Find(KoreanMeridiemTime, n).None?
    requires Find(KoreanHour, n).Some?
    ensures var h := DigitsValue(Find(KoreanHour, n).value[1]);
      (ParseTime(n).Failure? <==> h > 23)
      && (ParseTime(n).Success? ==> ParseTime(n).value == Some(Time(h, 0, 0, 0)))
  {
  }

  /**
   * `findWeekday` as a value: the first `weekdayMap` key found in the text,
   * else the two next-week-weekday patterns.
   */
  function WeekdayDate(n: string, d: LocalDate): Option<LocalDate> {
    match FirstWeekdayEntry(n, 0)
    case Some(k) => Some(NextOrSame(d, WeekdayMap[k].1))
    case None => NextWeekdayDate(n, d)
  }

  /**
   * The tail of `findWeekday`: "다음주" and then a Korean day character, else
   * "next week" and an English day name, give that weekday on or after the
   * date a week later.
   */
  function NextWeekdayDate(n: string, d: LocalDate): Option<LocalDate> {
    match Find(KoreanNextWeekday, n)
    case Some(g) => NextWeekOn(g, d)
    case None =>
      match Find(EnglishNextWeekday, n)
      case Some(g) => NextWeekOn(g, d)
      case None => None
  }

  /** `weekdayMap[groupValues[1]]`, applied a week after `d`; null when the group names no day. */
  function NextWeekOn(g: seq<string>, d: LocalDate): Option<LocalDate> {
    if |g| < 2 then None
    else
      match WeekdayOf(g[1])
      case Some(day) => Some(NextOrSame(PlusDays(d, 7), day))
      case None => None
  }

  /**
   * `findWeekday`: a loop over `weekdayMap` that returns at the first key
   * contained in the text, then the next-week-weekday patterns.
   */
  method FindWeekday(text: string, reference: ZonedDateTime) returns (r: Option<LocalDate>)
    ensures r == WeekdayDate(text, reference.date)
  {
    var i := 0;
    while i < |WeekdayMap|
      invariant 0 <= i <= |WeekdayMap|
      invariant forall j | 0 <= j < i :: !Contains(text, WeekdayMap[j].0)
    {
      var (key, day) := WeekdayMap[i];
      if Contains(text, key) {
        FirstWeekdayEntryAt(text, i);
        return Some(NextOrSame(reference.date, day));
      }
      i := i + 1;
    }
    r := NextWeekdayDate(text, reference.date);
  }

  /** The entry the loop stops at is the first one whose key occurs. */
  lemma FirstWeekdayEntryAt(n: string, i: nat)
    requires i < |WeekdayMap| && Contains(n, WeekdayMap[i].0)
    requires forall j | 0 <= j < i :: !Contains(n, WeekdayMap[j].0)
    ensures FirstWeekdayEntry(n, 0) == Some(i)
  {
  }

  /**
   * The date part of `resolve`: the `when` chain of keyword rules tried in
   * order (the table `DateCues`), then `findWeekday`.
   */
  function ResolveDate(n: string, d: LocalDate): Option<LocalDate> {
    match FirstCue(n, 0)
    case Some(k) => Some(RuleDate(DateCues[k].1, d))
    case None => WeekdayDate(n, d)
  }

  /** The first keyword rule, from the `from`-th on, with a keyword in `n`. */
  function FirstCue(n: string, from: nat): (r: Option<nat>)
    requires from <= |DateCues|
    ensures r.Some? ==> from <= r.value < |DateCues| && ContainsAny(n, DateCues[r.value].0)
    ensures r.Some? ==> forall j | from <= j < r.value :: !ContainsAny(n, DateCues[j].0)
    ensures r.None? ==> forall j | from <= j < |DateCues| :: !ContainsAny(n, DateCues[j].0)
    decreases |DateCues| - from
  {
    if from == |DateCues| then None
    else if ContainsAny(n, DateCues[from].0) then Some(from)
    else FirstCue(n, from + 1)
  }

  /** `LocalTime.of(9, 0)`. */
  const NineOClock: LocalTime := Time(9, 0, 0, 0)

  /**
   * `resolve(text, reference)`: the date is worked out first, then the time,
   * whose `LocalTime.of` may throw even when there is no date; no date gives null.
   */
  function Resolve(text: string, reference: ZonedDateTime): (r: Result<Option<ZonedDateTime>, DateTimeError>)
    ensures r.Failure? <==> ParseTime(Lower(text)).Failure?
    ensures r.Success? ==> (r.value.Some? <==> ResolveDate(Lower(text), reference.date).Some?)
    ensures r.Success? && r.value.Some? ==>
      && r.value.value.date == ResolveDate(Lower(text), reference.date).value
      && r.value.value.time == ParseTime(Lower(text)).value.GetOr(NineOClock)
  {
    var n := Lower(text);
    var date := ResolveDate(n, reference.date);
    match ParseTime(n)
    case Failure(e) => Failure(e)
    case Success(t) =>
      var time := t.GetOr(NineOClock);
      Success(if date.Some? then Some(ZonedDateTime(date.value, time)) else None)
  }

  // ---------------------------------------------------------------------
  // The date keyword rules as a table, and first-match priority.

  datatype DateRule = Today | Tomorrow | DayAfterTomorrow | ThisWeek | NextWeek | ThisMonth | NextMonth

  /** The keyword rules of `resolve`, in the order they are tried. */
  const DateCues: seq<(seq<string>, DateRule)> := [
    (["오늘", "today"], Today),
    (["내일", "tomorrow"], Tomorrow),
    (["모레"], DayAfterTomorrow),
    (["이번주", "이번 주", "this week"], ThisWeek),
    (["다음주", "다음 주", "next week"], NextWeek),
    (["이번달", "이번 달", "this month"], ThisMonth),
    (["다음달", "다음 달", "next month"], NextMonth)]

  /** The date a rule gives for reference date `d`. */
  function RuleDate(rule: DateRule, d: LocalDate): LocalDate {
    match rule
    case Today => d
    case Tomorrow => PlusDays(d, 1)
    case DayAfterTomorrow => PlusDays(d, 2)
    case ThisWeek => d
    case NextWeek => PlusDays(d, 7)
    case ThisMonth => d
    case NextMonth => FirstOfNextMonth(d)
  }

  /** Every keyword rule lands on the reference day or at most 31 days after it. */
  lemma RuleDateWithinMonth(rule: DateRule, d: LocalDate)
    ensures 0 <= EpochDay(RuleDate(rule, d)) - EpochDay(d) <= 31
  {
    if rule == NextMonth {
      FirstOfNextMonthIsLater(d);
    }
  }

  lemma ContainsAnyCons(s: string, subs: seq<string>)
    requires subs != []
    ensures ContainsAny(s, subs) <==> Contains(s, subs[0]) || ContainsAny(s, subs[1..])
  {
    if ContainsAny(s, subs[1..]) {
      var k :| 0 <= k < |subs[1..]| && Contains(s, subs[1..][k]);
      assert Contains(s, subs[k + 1]);
    }
    if ContainsAny(s, subs) && !Contains(s, subs[0]) {
      var k :| 0 <= k < |subs| && Contains(s, subs[k]);
      assert k > 0 && subs[1..][k - 1] == subs[k];
    }
  }

  /** Each rule of the table holds exactly when one of its keywords occurs. */
  lemma DateCueUnfold(n: string)
    ensures ContainsAny(n, DateCues[0].0) <==> Contains(n, "오늘") || Contains(n, "today")
    ensures ContainsAny(n, DateCues[1].0) <==> Contains(n, "내일") || Contains(n, "tomorrow")
    ensures ContainsAny(n, DateCues[2].0) <==> Contains(n, "모레")
    ensures ContainsAny(n, DateCues[3].0) <==> Contains(n, "이번주") || Contains(n, "이번 주") || Contains(n, "this week")
    ensures ContainsAny(n, DateCues[4].0) <==> Contains(n, "다음주") || Contains(n, "다음 주") || Contains(n, "next week")
    ensures ContainsAny(n, DateCues[5].0) <==> Contains(n, "이번달") || Contains(n, "이번 달") || Contains(n, "this month")
    ensures ContainsAny(n, DateCues[6].0) <==> Contains(n, "다음달") || Contains(n, "다음 달") || Contains(n, "next month")
  {
    forall k | 0 <= k < |DateCues| ensures ContainsAny(n, DateCues[k].0) <==> UnrolledCue(n, DateCues[k].0) {
      UnrollCue(n, DateCues[k].0);
    }
  }

  /** `ContainsAny` of a list of one to three keywords, written out. */
  predicate UnrolledCue(n: string, keys: seq<string>)
    requires 1 <= |keys| <= 3
  {
    if |keys| == 1 then Contains(n, keys[0])
    else if |keys| == 2 then Contains(n, keys[0]) || Contains(n, keys[1])
    else Contains(n, keys[0]) || Contains(n, keys[1]) || Contains(n, keys[2])
  }

  lemma UnrollCue(n: string, keys: seq<string>)
    requires 1 <= |keys| <= 3
    ensures ContainsAny(n, keys) <==> UnrolledCue(n, keys)
  {
    ContainsAnyCons(n, keys);
    if |keys| >= 2 {
      ContainsAnyCons(n, keys[1..]);
      if |keys| == 3 {
        ContainsAnyCons(n, keys[2..]);
      }
    }
    var rest := keys[|keys|..];
    assert rest == [];
  }

  /**
   * First match wins: when the `k`-th rule is the first whose keyword occurs
   * in the text, the date is that rule's date.
   */
  lemma ResolveDateFirstMatch(n: string, d: LocalDate, k: nat)
    requires k < |DateCues|
    requires ContainsAny(n, DateCues[k].0)
    requires forall j | 0 <= j < k :: !ContainsAny(n, DateCues[j].0)
    ensures ResolveDate(n, d) == Some(RuleDate(DateCues[k].1, d))
  {
    var r := FirstCue(n, 0);
    assert r == Some(k);
  }

  /** When no keyword rule matches, the date is the weekday lookup's. */
  lemma ResolveDateNoCue(n: string, d: LocalDate)
    requires forall j | 0 <= j < |DateCues| :: !ContainsAny(n, DateCues[j].0)
    ensures ResolveDate(n, d) == WeekdayDate(n, d)
  {
    var r := FirstCue(n, 0);
    assert r == None;
  }

  // ---------------------------------------------------------------------
  // What the weekday lookup and the keyword rules imply.

  /** Every day character of `[월화수목금토일]` is itself a `weekdayMap` key. */
  lemma KoreanDayIsKey(c: char)
    requires IsKoreanDay(c)
    ensures exists j | 0 <= j < 7 :: WeekdayMap[j].0 == [c]
  {
    if c == '월' { assert WeekdayMap[0].0 == [c]; }
    else if c == '화' { assert WeekdayMap[1].0 == [c]; }
    else if c == '수' { assert WeekdayMap[2].0 == [c]; }
    else if c == '목' { assert WeekdayMap[3].0 == [c]; }
    else if c == '금' { assert WeekdayMap[4].0 == [c]; }
    else if c == '토' { assert WeekdayMap[5].0 == [c]; }
    else { assert WeekdayMap[6].0 == [c]; }
  }

  /**
   * The two next-week patterns of `findWeekday` can never decide its result:
   * the day they capture is a `weekdayMap` key that occurs in the text, so the
   * loop over the map has already returned.
   */
  lemma NextWeekPatternsUnreachable(n: string)
    requires FirstWeekdayEntry(n, 0).None?
    ensures Find(KoreanNextWeekday, n).None?
    ensures Find(EnglishNextWeekday, n).None?
  {
    if Find(KoreanNextWeekday, n).Some? {
      KoreanMatchNamesKey(n);
    }
    if Find(EnglishNextWeekday, n).Some? {
      EnglishMatchNamesKey(n);
    }
  }

  /** The day a next-week pattern captures occurs in the text, right after the spaces. */
  lemma CapturedDayOccurs(p: Pattern, n: string, i: int, g: seq<string>)
    requires p.KoreanNextWeekday? || p.EnglishNextWeekday?
    requires Placed(p, n, i, g)
    ensures Contains(n, g[1])
  {
    var head := if p.KoreanNextWeekday? then "다음주" else "next week";
    var sp :| IsSpaceRun(sp) && g[0] == head + sp + g[1];
    OccursSplit(n, head + sp, g[1], i);
    ContainsAt(n, g[1], i + |head + sp|);
  }

  /** A `다음주` match captures a Korean day key that occurs in the text. */
  lemma KoreanMatchNamesKey(n: string)
    requires Find(KoreanNextWeekday, n).Some?
    ensures exists j | 0 <= j < 7 :: Contains(n, WeekdayMap[j].0)
  {
    var g := Find(KoreanNextWeekday, n).value;
    var c := g[1][0];
    CapturedDayOccurs(KoreanNextWeekday, n, FindFrom(KoreanNextWeekday, n, 0).value, g);
    KoreanDayIsKey(c);
    assert g[1] == [c];
  }

  /** A `next week` match captures an English day key that occurs in the text. */
  lemma EnglishMatchNamesKey(n: string)
    requires Find(EnglishNextWeekday, n).Some?
    ensures exists j | 7 <= j < |WeekdayMap| :: Contains(n, WeekdayMap[j].0)
  {
    var g := Find(EnglishNextWeekday, n).value;
    CapturedDayOccurs(EnglishNextWeekday, n, FindFrom(EnglishNextWeekday, n, 0).value, g);
  }

  /**
   * `findWeekday` finds a date exactly when some `weekdayMap` key occurs, and
   * that date is the first key's weekday, on the reference day or up to six
   * days later.
   */
  lemma WeekdayDateIsFirstKey(n: string, d: LocalDate)
    ensures WeekdayDate(n, d).Some? <==> exists j | 0 <= j < |WeekdayMap| :: Contains(n, WeekdayMap[j].0)
    ensures WeekdayDate(n, d).Some? ==>
      var k := FirstWeekdayEntry(n, 0).value;
      var r := WeekdayDate(n, d).value;
      DayOfWeekOf(r) == WeekdayMap[k].1 && 0 <= EpochDay(r) - EpochDay(d) <= 6
  {
    match FirstWeekdayEntry(n, 0)
    case Some(k) =>
      NextOrSameIsFirst(d, WeekdayMap[k].1);
    case None =>
      NextWeekPatternsUnreachable(n);
  }

  /**
   * The Sunday reading of `일`: with no keyword rule and no earlier day key,
   * any occurrence of the character `일` (as in `일정`, "schedule") resolves
   * to the coming Sunday.
   */
  lemma SundayFromAnyIl(n: string, d: LocalDate)
    requires forall j | 0 <= j < |DateCues| :: !ContainsAny(n, DateCues[j].0)
    requires forall j | 0 <= j < 6 :: !Contains(n, WeekdayMap[j].0)
    requires Contains(n, "일")
    ensures ResolveDate(n, d) == Some(NextOrSame(d, SUNDAY))
  {
    assert WeekdayMap[6] == ("일", SUNDAY);
    ResolveDateNoCue(n, d);
    WeekdayDateAt(n, d, 6);
  }

  /** With no earlier key in the text, the `i`-th `weekdayMap` entry fixes the weekday date. */
  lemma WeekdayDateAt(n: string, d: LocalDate, i: nat)
    requires i < |WeekdayMap| && Contains(n, WeekdayMap[i].0)
    requires forall j | 0 <= j < i :: !Contains(n, WeekdayMap[j].0)
    ensures WeekdayDate(n, d) == Some(NextOrSame(d, WeekdayMap[i].1))
  {
    FirstWeekdayEntryAt(n, i);
  }

  /**
   * A following day name does not refine `다음주`: once `다음주` is the first
   * keyword rule that matches, the date is exactly seven days later.
   */
  lemma NextWeekIgnoresDayName(n: string, d: LocalDate)
    requires Contains(n, "다음주")
    requires forall j | 0 <= j < 4 :: !ContainsAny(n, DateCues[j].0)
    ensures ResolveDate(n, d) == Some(PlusDays(d, 7))
  {
    assert DateCues[4] == (["다음주", "다음 주", "next week"], NextWeek);
    assert ContainsAny(n, DateCues[4].0) by {
      assert DateCues[4].0[0] == "다음주";
    }
    ResolveDateFirstMatch(n, d, 4);
    assert RuleDate(NextWeek, d) == PlusDays(d, 7);
  }

  /** A resolved date is never before the reference date and at most 31 days after it. */
  lemma ResolveWithinMonth(text: string, reference: ZonedDateTime)
    requires Resolve(text, reference).Success? && Resolve(text, reference).value.Some?
    ensures 0 <= EpochDay(Resolve(text, reference).value.value.date) - EpochDay(reference.date) <= 31
  {
    var n := Lower(text);
    var d := reference.date;
    match FirstCue(n, 0)
    case Some(k) =>
      RuleDateWithinMonth(DateCues[k].1, d);
    case None =>
      WeekdayDateIsFirstKey(n, d);
  }

  /**
   * The time of a resolved date-time: the parsed time, or 09:00 when no time
   * pattern matches; and there is no date-time at all without a date cue.
   */
  lemma ResolveTime(text: string, reference: ZonedDateTime)
    ensures ResolveDate(Lower(text), reference.date).None? && ParseTime(Lower(text)).Success? ==>
      Resolve(text, reference) == Success(None)
    ensures ResolveDate(Lower(text), reference.date).Some? && ParseTime(Lower(text)) == Success(None) ==>
      Resolve(text, reference) == Success(Some(ZonedDateTime(ResolveDate(Lower(text), reference.date).value, NineOClock)))
    ensures forall t :: ResolveDate(Lower(text), reference.date).Some? && ParseTime(Lower(text)) == Success(Some(t)) ==>
      Resolve(text, reference) == Success(Some(ZonedDateTime(ResolveDate(Lower(text), reference.date).value, t)))
  {
  }

  /** "내일 오후 3시" ("tomorrow 3 pm") resolves to the day after the reference at 15:00. */
  lemma TomorrowAfternoon(reference: ZonedDateTime)
    ensures Resolve("내일 오후 3시", reference) == Success(Some(ZonedDateTime(PlusDays(reference.date, 1), Time(15, 0, 0, 0))))
  {
    var n := "내일 오후 3시";
    assert Lower(n) == n;
    assert ResolveDate(n, reference.date) == Some(PlusDays(reference.date, 1)) by {
      assert OccursAt(n, DateCues[1].0[0], 0);
      WordsBlocked(n, DateCues[0].0);
      ResolveDateFirstMatch(n, reference.date, 1);
    }
    assert ParseTime(n) == Success(Some(Time(15, 0, 0, 0))) by {
      AfternoonThree(n);
    }
  }

  /** The only time pattern in "내일 오후 3시" is 오후 3시, at index 3. */
  lemma AfternoonThree(n: string)
    requires n == "내일 오후 3시"
    ensures ParseTime(n) == Success(Some(Time(15, 0, 0, 0)))
  {
    NoColonNoMatch(n);
    NoMNoMeridiem(n);
    var g := AfternoonAtThree(n);
    assert DigitsValue(g[2]) == 3;
    assert KoreanMeridiemClock(g) == Success(Time(15, 0, 0, 0));
  }

  /** Without a ':' in the text, HH:MM matches nowhere. */
  lemma NoColonNoMatch(n: string)
    requires ':' !in n
    ensures Find(ColonTime, n).None?
  {
    forall j | 0 <= j <= |n| ensures MatchAt(ColonTime, n, j).None? {
    }
  }

  /** Without an 'm' in the text, am/pm matches nowhere. */
  lemma NoMNoMeridiem(n: string)
    requires 'm' !in n
    ensures Find(MeridiemTime, n).None?
  {
    CharBlocks(n, "am", 1);
    CharBlocks(n, "pm", 1);
    forall j | 0 <= j <= |n| ensures MatchAt(MeridiemTime, n, j).None? {
      assert MeridiemAt(n, j).None?;
    }
  }

  /** In "내일 오후 3시" the 오전/오후 pattern first matches at index 3, as 오후 3시. */
  lemma AfternoonAtThree(n: string) returns (g: seq<string>)
    requires n == "내일 오후 3시"
    ensures Find(KoreanMeridiemTime, n) == Some(g)
    ensures g[1] == "오후" && g[2] == "3" && g[3] == ""
  {
    NoMeridiemBeforeThree(n);
    g := AfternoonMatch(n);
    assert FindFrom(KoreanMeridiemTime, n, 0) == Some(3);
  }

  /** Neither 오전 nor 오후 starts in "내일 ". */
  lemma NoMeridiemBeforeThree(n: string)
    requires n == "내일 오후 3시"
    ensures forall j | 0 <= j < 3 :: MatchAt(KoreanMeridiemTime, n, j).None?
  {
    CharBlocks(n, "오전", 1);
    forall j | 0 <= j < 3 ensures MatchAt(KoreanMeridiemTime, n, j).None? {
      if j == 0 {
        NotStartingAt(n, "오후", 0);
      } else if j == 1 {
        NotStartingAt(n, "오후", 1);
      } else {
        NotStartingAt(n, "오후", 2);
      }
    }
  }

  /** At index 3 of "내일 오후 3시" the 오전/오후 pattern matches 오후 3시 with no minutes. */
  lemma AfternoonMatch(n: string) returns (g: seq<string>)
    requires n == "내일 오후 3시"
    ensures MatchAt(KoreanMeridiemTime, n, 3) == Some(g)
    ensures g[1] == "오후" && g[2] == "3" && g[3] == ""
  {
    assert n[3] == '오' && n[4] == '후' && n[5] == ' ' && n[6] == '3' && n[7] == '시';
    assert OccursAt(n, "오후", 3);
    SkipSpacesStops(n, 5, 6);
    assert Digits12(n, 6) == 1;
    assert Digits12(n, 8) == 0;
    g := KoreanMeridiemGroups(n, 3, 6, 7);
  }
}
