/**
 * The Cognos export transform (source/cognos/cognos_transform.py).
 *
 * Every column is read as text. Each Polars expression becomes a function
 * on one row's cells, a cell being Option<string> with None for null. A
 * when/then chain whose condition is null falls through to its next branch,
 * as Polars does. read_and_transform cleans the cells, numbers the rows from
 * 1, derives the output columns, and returns the accumulated rows, then the
 * original rows, then a de-accumulated copy of every row not in December.
 */
module CognosTransform {
  import opened Wrappers
  import opened Values

  type Cell = Option<string>

  // ---------------------------------------------------------------------------
  // Text helpers

  predicate StartsWith(s: string, prefix: string)
  {
    |prefix| <= |s| && s[..|prefix|] == prefix
  }

  predicate EndsWith(s: string, suffix: string)
  {
    |suffix| <= |s| && s[|s| - |suffix|..] == suffix
  }

  /** str.slice(offset, length), cut short at the end of the string. */
  function Slice(s: string, offset: nat, length: nat): (r: string)
    ensures |r| <= length
    ensures offset + length <= |s| ==> r == s[offset..offset + length]
  {
    var lo := if offset <= |s| then offset else |s|;
    var hi := if offset + length <= |s| then offset + length else |s|;
    s[lo..hi]
  }

  predicate IsDigit(c: char)
  {
    '0' <= c <= '9'
  }

  predicate AllDigits(s: string)
  {
    forall i :: 0 <= i < |s| ==> IsDigit(s[i])
  }

  /** The value of a string of decimal digits. */
  function DigitsValue(s: string): nat
    requires AllDigits(s)
  {
    if s == [] then 0
    else DigitsValue(s[..|s| - 1]) * 10 + ((s[|s| - 1] as int) - ('0' as int))
  }

  lemma {:induction false} DigitsValueBound(s: string)
    requires AllDigits(s)
    ensures DigitsValue(s) < Pow10(|s|)
  {
    if s != [] {
      DigitsValueBound(s[..|s| - 1]);
    }
  }

  function Pow10(n: nat): (p: nat)
    ensures p >= 1
  {
    if n == 0 then 1 else 10 * Pow10(n - 1)
  }

  /** Decimal text of n, without leading zeros: what casting an integer to Utf8 gives. */
  function NatToString(n: nat): (s: string)
    ensures s != [] && AllDigits(s)
    ensures DigitsValue(s) == n
    ensures |s| == 1 <==> n < 10
    ensures s[0] != '0' || n == 0
  {
    if n < 10 then [('0' as int + n) as char]
    else
      var prefix := NatToString(n / 10);
      var s := prefix + [('0' as int + n % 10) as char];
      assert s[..|s| - 1] == prefix;
      s
  }

  /** Whitespace as Rust's char::is_whitespace, which strip_chars() uses: the Unicode White_Space set. */
  predicate IsSpace(c: char)
  {
    || '\U{0009}' <= c <= '\U{000D}' || c == '\U{0020}' || c == '\U{0085}' || c == '\U{00A0}'
    || c == '\U{1680}' || '\U{2000}' <= c <= '\U{200A}' || c == '\U{2028}' || c == '\U{2029}'
    || c == '\U{202F}' || c == '\U{205F}' || c == '\U{3000}'
  }

  function StripStart(s: string): (r: string)
    ensures |r| <= |s| && r == s[|s| - |r|..]
    ensures r == [] || !IsSpace(r[0])
    ensures forall i :: 0 <= i < |s| - |r| ==> IsSpace(s[i])
  {
    if s != [] && IsSpace(s[0]) then
      var r := StripStart(s[1..]);
      assert s[1..][|s| - 1 - |r|..] == s[|s| - |r|..];
      assert forall i :: 1 <= i < |s| - |r| ==> s[i] == s[1..][i - 1];
      r
    else s
  }

  function StripEnd(s: string): (r: string)
    ensures |r| <= |s| && r == s[..|r|]
    ensures r == [] || !IsSpace(r[|r| - 1])
    ensures forall i :: |r| <= i < |s| ==> IsSpace(s[i])
  {
    if s != [] && IsSpace(s[|s| - 1]) then
      var r := StripEnd(s[..|s| - 1]);
      assert s[..|s| - 1][..|r|] == s[..|r|];
      assert forall i :: |r| <= i < |s| - 1 ==> s[i] == s[..|s| - 1][i];
      r
    else s
  }

  /** r is s[i..i + |r|] and everything of s around it is whitespace. */
  predicate CutFrom(s: string, r: string, i: nat)
  {
    i + |r| <= |s| && r == s[i..i + |r|] &&
    (forall k :: 0 <= k < i ==> IsSpace(s[k])) &&
    (forall k :: i + |r| <= k < |s| ==> IsSpace(s[k]))
  }

  /** str.strip_chars(): whitespace removed at both ends. */
  function Strip(s: string): (r: string)
    ensures exists i :: CutFrom(s, r, i)
    ensures r == [] || (!IsSpace(r[0]) && !IsSpace(r[|r| - 1]))
  {
    StripCutsAt(s);
    StripEnd(StripStart(s))
  }

  /** The leading whitespace StripStart drops and the trailing whitespace StripEnd drops surround the kept text. */
  lemma StripCutsAt(s: string)
    ensures CutFrom(s, StripEnd(StripStart(s)), |s| - |StripStart(s)|)
  {
    var t := StripStart(s);
    CutAround(s, t, StripEnd(t));
  }

  /** A whitespace-led suffix t of s, cut down to a prefix r followed by whitespace, is a cut of s. */
  lemma CutAround(s: string, t: string, r: string)
    requires |t| <= |s| && t == s[|s| - |t|..] && forall k :: 0 <= k < |s| - |t| ==> IsSpace(s[k])
    requires |r| <= |t| && r == t[..|r|] && forall k :: |r| <= k < |t| ==> IsSpace(t[k])
    ensures CutFrom(s, r, |s| - |t|)
  {
    var i := |s| - |t|;
    assert r == s[i..i + |r|];
    forall k | i + |r| <= k < |s|
      ensures IsSpace(s[k])
    {
      assert s[k] == t[k - i];
    }
  }

  /** Text that is whitespace throughout strips to nothing, and only such text does. */
  lemma {:induction false} StripEmptyIffBlank(s: string)
    ensures Strip(s) == [] <==> forall k :: 0 <= k < |s| ==> IsSpace(s[k])
  {
    var r := Strip(s);
    var i: nat :| CutFrom(s, r, i);
    if r != [] {
      assert r[0] == s[i] && !IsSpace(r[0]);
    }
  }

  // ---------------------------------------------------------------------------
  // _clean_columns

  /** strip_chars().replace("", None) on one cell. */
  function CleanCell(c: Cell): (r: Cell)
    ensures c.None? ==> r.None?
    ensures c.Some? && r.Some? ==> r.value == Strip(c.value)
    ensures r.Some? ==> r.value != [] && !IsSpace(r.value[0]) && !IsSpace(r.value[|r.value| - 1])
    ensures c.Some? ==> (r.None? <==> forall i :: 0 <= i < |c.value| ==> IsSpace(c.value[i]))
  {
    match c
    case None => None
    case Some(s) =>
      var t := Strip(s);
      StripEmptyIffBlank(s);
      if t == [] then None else Some(t)
  }

  lemma {:induction false} StripStartKeeps(s: string)
    requires s == [] || !IsSpace(s[0])
    ensures StripStart(s) == s
  {
  }

  lemma {:induction false} StripEndKeeps(s: string)
    requires s == [] || !IsSpace(s[|s| - 1])
    ensures StripEnd(s) == s
  {
  }

  /** Cleaning a cleaned cell changes nothing. */
  lemma {:induction false} CleanCellIdempotent(c: Cell)
    ensures CleanCell(CleanCell(c)) == CleanCell(c)
  {
    if CleanCell(c).Some? {
      var t := CleanCell(c).value;
      CleanCellKeepsClean(t);
    }
  }

  /** A cell is kept as it is exactly when it has text and no surrounding whitespace. */
  lemma {:induction false} CleanCellKeepsClean(s: string)
    requires s != [] && !IsSpace(s[0]) && !IsSpace(s[|s| - 1])
    ensures CleanCell(Some(s)) == Some(s)
  {
    StripStartKeeps(s);
    StripEndKeeps(s);
  }

  // ---------------------------------------------------------------------------
  // _extract_bolag_id and _extract_justeringstyp

  /** _extract_bolag_id: drop a trailing "MA", else a leading "TR", else a trailing "L". */
  function BolagId(col: Cell): (r: Cell)
    ensures r.None? <==> col.None?
    ensures col.Some? ==> var s := col.value;
      (EndsWith(s, "MA") ==> r.value + "MA" == s) &&
      (!EndsWith(s, "MA") && StartsWith(s, "TR") ==> "TR" + r.value == s) &&
      (!EndsWith(s, "MA") && !StartsWith(s, "TR") && EndsWith(s, "L") ==> r.value + "L" == s) &&
      (!EndsWith(s, "MA") && !StartsWith(s, "TR") && !EndsWith(s, "L") ==> r.value == s)
  {
    match col
    case None => None
    case Some(s) =>
      if EndsWith(s, "MA") then
        assert s == s[..|s| - 2] + "MA";
        Some(s[..|s| - 2])
      else if StartsWith(s, "TR") then
        assert s == "TR" + s[2..];
        Some(s[2..])
      else if EndsWith(s, "L") then
        assert s == s[..|s| - 1] + "L";
        Some(s[..|s| - 1])
      else Some(s)
  }

  const ManualLabel := "Manuella Justeringar (MA)"
  const TrafficLabel := "Trafiken operativ (TR)"
  const LeasingLabel := "Leasing (L)"
  const NoAdjustmentLabel := "Ej justering"

  /** _extract_justeringstyp: the same precedence, naming the rule; a null code is "Ej justering". */
  function Justeringstyp(col: Cell): (kind: string)
    ensures kind in {ManualLabel, TrafficLabel, LeasingLabel, NoAdjustmentLabel}
    ensures col.None? ==> kind == NoAdjustmentLabel
    ensures col.Some? ==> var s := col.value;
      (kind == ManualLabel <==> EndsWith(s, "MA")) &&
      (kind == TrafficLabel <==> !EndsWith(s, "MA") && StartsWith(s, "TR")) &&
      (kind == LeasingLabel <==> !EndsWith(s, "MA") && !StartsWith(s, "TR") && EndsWith(s, "L"))
  {
    match col
    case None => NoAdjustmentLabel
    case Some(s) =>
      if EndsWith(s, "MA") then ManualLabel
      else if StartsWith(s, "TR") then TrafficLabel
      else if EndsWith(s, "L") then LeasingLabel
      else NoAdjustmentLabel
  }

  /**
   * The company id is the code with exactly the affix its label names removed,
   * so it differs from the code exactly when the code carries an adjustment label.
   */
  lemma AdjustedIffLabelled(s: string)
    ensures var id := BolagId(Some(s)).value;
      var kind := Justeringstyp(Some(s));
      (kind == ManualLabel ==> id + "MA" == s) &&
      (kind == TrafficLabel ==> "TR" + id == s) &&
      (kind == LeasingLabel ==> id + "L" == s) &&
      (kind == NoAdjustmentLabel ==> id == s)
    ensures BolagId(Some(s)) != Some(s) <==> Justeringstyp(Some(s)) != NoAdjustmentLabel
  {
    if EndsWith(s, "MA") {
      assert |BolagId(Some(s)).value| == |s| - 2;
    } else if StartsWith(s, "TR") {
      assert |BolagId(Some(s)).value| == |s| - 2;
    } else if EndsWith(s, "L") {
      assert |BolagId(Some(s)).value| == |s| - 1;
    }
  }

  /** A trailing "MA" wins over a leading "TR": only the "MA" is removed, and the label is the manual one. */
  lemma ManualBeatsTraffic(s: string)
    requires StartsWith(s, "TR") && EndsWith(s, "MA")
    ensures BolagId(Some(s)) == Some(s[..|s| - 2])
    ensures StartsWith(BolagId(Some(s)).value, "TR") || |s| < 4
    ensures Justeringstyp(Some(s)) == ManualLabel
  {
    if |s| >= 4 {
      assert s[..|s| - 2][..2] == s[..2];
    }
  }

  // ---------------------------------------------------------------------------
  // _datatyp_cognos

  const AnltPrefixes := ["1010", "1013", "1110", "1130", "1150", "1215",
                         "1220", "1240", "1261", "1262", "1264", "1269", "1270"]
  const PanyPrefixes := ["1280", "1275"]
  const LsPrefixes := ["2350", "2390"]

  /** The labels of the all-digit branch. */
  const NumericLabels := {"ANLT", "PANY", "LS", "B", "R"}

  const Int64Max := 0x7FFF_FFFF_FFFF_FFFF

  /** konto.cast(pl.Int64, strict=False) on an all-digit code: null when empty or out of range. */
  function CastInt64(s: string): (v: Option<int>)
    requires AllDigits(s)
    ensures v.Some? <==> s != [] && DigitsValue(s) <= Int64Max
    ensures v.Some? ==> v.value == DigitsValue(s) && 0 <= v.value <= Int64Max
  {
    if s != [] && DigitsValue(s) <= Int64Max then Some(DigitsValue(s)) else None
  }

  /** num_branch, for a code the regex [^\d] does not match. */
  function NumericBranch(s: string): string
    requires AllDigits(s)
  {
    var left4 := Slice(s, 0, 4);
    if |s| == 7 && left4 in AnltPrefixes then "ANLT"
    else if |s| == 7 && left4 in PanyPrefixes then "PANY"
    else if |s| == 7 && left4 in LsPrefixes then "LS"
    else if (CastInt64(s).Some? && CastInt64(s).value < 2000) || s == "AJ" then "B"
    else "R"
  }

  /** str_branch, for a code with a non-digit. */
  function TextBranch(s: string): string
  {
    if StartsWith(s, "HARB") then "HARB"
    else if |s| == 6 then Slice(s, 0, 3)
    else if |s| == 7 then Slice(s, 0, 4)
    else s
  }

  /**
   * _datatyp_cognos: a non-null code with a non-digit takes the text branch;
   * every other code, null included, takes the numeric branch.
   */
  function DatatypCognos(konto: Cell): (r: string)
    ensures konto.Some? && !AllDigits(konto.value) ==> r == "HARB" || StartsWith(konto.value, r)
    ensures !(konto.Some? && !AllDigits(konto.value)) ==> r in NumericLabels
  {
    match konto
    case None => "R"
    case Some(s) =>
      if !AllDigits(s) then
        assert StartsWith(s, Slice(s, 0, 3)) && StartsWith(s, Slice(s, 0, 4)) && StartsWith(s, s);
        TextBranch(s)
      else NumericBranch(s)
  }

  /** The `konto == "AJ"` test never decides: "AJ" has non-digits and takes the text branch. */
  lemma AjTestUnreachable()
    ensures !AllDigits("AJ")
    ensures DatatypCognos(Some("AJ")) == "AJ"
  {
    assert !IsDigit("AJ"[0]);
  }

  /** An all-digit code of one to three digits is a balance account. */
  lemma {:induction false} ShortNumericIsBalance(s: string)
    requires AllDigits(s) && 1 <= |s| <= 3
    ensures DatatypCognos(Some(s)) == "B"
  {
    DigitsValueBound(s);
    assert Pow10(|s|) <= 1000;
  }

  /** A seven-digit code in none of the prefix lists is "B" below 2000 and "R" from 2000 on. */
  lemma SevenDigitThreshold(s: string)
    requires AllDigits(s) && |s| == 7
    requires s[..4] !in AnltPrefixes && s[..4] !in PanyPrefixes && s[..4] !in LsPrefixes
    ensures DatatypCognos(Some(s)) == (if DigitsValue(s) < 2000 then "B" else "R")
  {
    DigitsValueBound(s);
  }

  /** No four-digit prefix is in two lists, so the order of the list tests never matters. */
  lemma PrefixListsDisjoint(p: string)
    ensures !(p in AnltPrefixes && p in PanyPrefixes)
    ensures !(p in AnltPrefixes && p in LsPrefixes)
    ensures !(p in PanyPrefixes && p in LsPrefixes)
  {
  }

  /** A seven-digit code takes the label of the list holding its first four digits. */
  lemma NumericListRules(s: string)
    requires AllDigits(s) && |s| == 7
    ensures s[..4] in AnltPrefixes ==> DatatypCognos(Some(s)) == "ANLT"
    ensures s[..4] in PanyPrefixes ==> DatatypCognos(Some(s)) == "PANY"
    ensures s[..4] in LsPrefixes ==> DatatypCognos(Some(s)) == "LS"
  {
    assert Slice(s, 0, 4) == s[..4];
    PrefixListsDisjoint(s[..4]);
  }

  /**
   * An all-digit code not caught by a prefix list is "B" exactly when its
   * value is below 2000, else "R"; a null code is "R".
   */
  lemma NumericThresholdRule(s: string)
    requires AllDigits(s)
    requires !(|s| == 7 && (s[..4] in AnltPrefixes || s[..4] in PanyPrefixes || s[..4] in LsPrefixes))
    ensures DatatypCognos(Some(s)) == (if s != [] && DigitsValue(s) < 2000 then "B" else "R")
    ensures DatatypCognos(None) == "R"
  {
    assert |s| == 7 ==> Slice(s, 0, 4) == s[..4];
    assert s != "AJ" by {
      if |s| == 2 {
        assert IsDigit(s[0]) && !IsDigit("AJ"[0]);
      }
    }
    assert (CastInt64(s).Some? && CastInt64(s).value < 2000) <==> s != [] && DigitsValue(s) < 2000;
    assert DatatypCognos(Some(s)) == NumericBranch(s);
  }

  /**
   * The text branch, rule by rule: a code starting with "HARB" is "HARB";
   * otherwise a six-character code gives its first three characters, a
   * seven-character code its first four, and any other code itself.
   */
  lemma TextCodeRules(s: string)
    requires !AllDigits(s)
    ensures StartsWith(s, "HARB") ==> DatatypCognos(Some(s)) == "HARB"
    ensures !StartsWith(s, "HARB") && |s| == 6 ==> DatatypCognos(Some(s)) == s[..3]
    ensures !StartsWith(s, "HARB") && |s| == 7 ==> DatatypCognos(Some(s)) == s[..4]
    ensures !StartsWith(s, "HARB") && |s| != 6 && |s| != 7 ==> DatatypCognos(Some(s)) == s
  {
  }

  // ---------------------------------------------------------------------------
  // _parse_period, _parse_aktualitet, _format_period_us

  datatype Date = Date(year: nat, month: nat, day: nat)

  /** The year slice and the month slice of perakt are both non-empty and all digits. */
  predicate PeriodDigits(p: string)
  {
    Slice(p, 0, 2) != [] && AllDigits(Slice(p, 0, 2)) && Slice(p, 2, 2) != [] && AllDigits(Slice(p, 2, 2))
  }

  predicate ValidMonth(d: Date)
  {
    1 <= d.month <= 12
  }

  /** cast(pl.Int32) of a short slice, strict: text that is not all digits raises. */
  function CastInt32Strict(s: string): (r: Result<nat, string>)
    requires |s| <= 2
    ensures r.Ok? <==> s != [] && AllDigits(s)
    ensures r.Ok? ==> r.value == DigitsValue(s) && r.value < 100
  {
    if s != [] && AllDigits(s) then
      DigitsValueBound(s);
      assert Pow10(|s|) <= 100;
      Ok(DigitsValue(s))
    else Err("conversion from `str` to `i32` failed")
  }

  /**
   * _parse_period: "YYMM..." is the first of month MM of year 2000 + YY. A
   * null perakt gives a null date, text that does not cast raises, and a
   * month outside 1..12 gives a null date.
   */
  function ParsePeriod(perakt: Cell): (r: Result<Option<Date>, string>)
    ensures perakt.None? ==> r == Ok(None)
    ensures r.Err? <==> perakt.Some? && !PeriodDigits(perakt.value)
    ensures perakt.Some? && PeriodDigits(perakt.value) ==>
      var yy := DigitsValue(Slice(perakt.value, 0, 2));
      var mm := DigitsValue(Slice(perakt.value, 2, 2));
      r == Ok(if 1 <= mm <= 12 then Some(Date(2000 + yy, mm, 1)) else None)
    ensures r.Ok? && r.value.Some? ==> ValidMonth(r.value.value) && r.value.value.day == 1 &&
                                       2000 <= r.value.value.year < 2100
  {
    match perakt
    case None => Ok(None)
    case Some(p) =>
      match CastInt32Strict(Slice(p, 0, 2))
      case Err(e) => Err(e)
      case Ok(yy) =>
        match CastInt32Strict(Slice(p, 2, 2))
        case Err(e) => Err(e)
        case Ok(mm) =>
          if 1 <= mm <= 12 then Ok(Some(Date(2000 + yy, mm, 1))) else Ok(None)
  }

  /** Two-digit text for n < 100, zero-padded. */
  function TwoDigits(n: nat): (s: string)
    requires n < 100
    ensures |s| == 2 && AllDigits(s) && DigitsValue(s) == n
  {
    var s := [('0' as int + n / 10) as char, ('0' as int + n % 10) as char];
    assert s[..1] == [s[0]] && [s[0]][..0] == [];
    assert DigitsValue(s[..1]) == n / 10;
    s
  }

  /** A perakt made of a two-digit year, a two-digit month 1-12 and any tail parses to that month's first day. */
  lemma {:induction false} ParsePeriodReadsYearMonth(yy: nat, mm: nat, tail: string)
    requires yy < 100 && 1 <= mm <= 12
    ensures ParsePeriod(Some(TwoDigits(yy) + TwoDigits(mm) + tail)) == Ok(Some(Date(2000 + yy, mm, 1)))
  {
    var p := TwoDigits(yy) + TwoDigits(mm) + tail;
    assert Slice(p, 0, 2) == TwoDigits(yy);
    assert Slice(p, 2, 2) == TwoDigits(mm);
  }

  lemma ParsePeriodSample()
    ensures ParsePeriod(Some("2403AC")) == Ok(Some(Date(2024, 3, 1)))
  {
    assert Slice("2403AC", 0, 2) == "24";
    assert Slice("2403AC", 2, 2) == "03";
    assert DigitsValue("24") == 24;
    assert DigitsValue("03") == 3;
  }

  /** _parse_aktualitet: characters 4 and 5 of perakt. */
  function Aktualitet(perakt: Cell): (r: Cell)
    ensures r.None? <==> perakt.None?
    ensures perakt.Some? && |perakt.value| >= 6 ==> r.value == perakt.value[4..6]
    ensures perakt.Some? && 4 <= |perakt.value| < 6 ==> r.value == perakt.value[4..]
    ensures perakt.Some? && |perakt.value| < 4 ==> r.value == []
  {
    match perakt
    case None => None
    case Some(p) => Some(Slice(p, 4, 2))
  }

  /** _format_period_us: "M/1/YYYY", the month without zero padding. */
  function FormatPeriodUs(d: Option<Date>): (r: Cell)
    ensures r.None? <==> d.None?
  {
    match d
    case None => None
    case Some(date) => Some(NatToString(date.month) + "/" + "1" + "/" + NatToString(date.year))
  }

  /** The text splits at its first '/' into the month's digits, then "1/" and the year's digits. */
  lemma {:induction false} FormatPeriodUsReadsBack(d: Date)
    ensures var s := FormatPeriodUs(Some(d)).value;
      var m := NatToString(d.month);
      s == m + "/1/" + NatToString(d.year) && AllDigits(m) && DigitsValue(m) == d.month &&
      '/' !in m && (|m| == 1 <==> d.month < 10)
  {
    var m := NatToString(d.month);
    assert forall c :: c in m ==> IsDigit(c);
  }

  lemma {:induction false} NatToStringSamples()
    ensures NatToString(3) == "3"
    ensures NatToString(11) == "11"
    ensures NatToString(2024) == "2024"
  {
    assert NatToString(1) == "1";
    assert NatToString(2) == "2";
    assert NatToString(4) == "4";
    assert NatToString(20) == "20";
    assert NatToString(202) == "202";
  }

  lemma FormatPeriodUsSample()
    ensures FormatPeriodUs(Some(Date(2024, 3, 1))) == Some("3/1/2024")
    ensures FormatPeriodUs(Some(Date(2024, 11, 1))) == Some("11/1/2024")
  {
    NatToStringSamples();
    assert "3" + "/" + "1" + "/" + "2024" == "3/1/2024";
    assert "11" + "/" + "1" + "/" + "2024" == "11/1/2024";
  }

  /** dt.offset_by("1mo") on the first of a month. */
  function NextMonth(d: Date): (r: Date)
    ensures ValidMonth(d) ==> ValidMonth(r)
    ensures r.day == d.day
    ensures d.month < 12 ==> r == Date(d.year, d.month + 1, d.day)
    ensures d.month == 12 ==> r == Date(d.year + 1, 1, d.day)
  {
    if d.month < 12 then Date(d.year, d.month + 1, d.day) else Date(d.year + 1, 1, d.day)
  }

  // ---------------------------------------------------------------------------
  // Rows

  /** The input columns the transform reads, after every column is cast to text. */
  datatype RawRow = RawRow(
    perakt: Cell, konto: Cell, motbol: Cell, belopp: Cell, bol: Cell,
    travkd: Cell, ktypkonc: Cell, vernr: Cell, vtyp: Cell)

  /** The selected output columns, in select order, without _period_date. */
  datatype Fields = Fields(
    datatypCognos: string,
    justeringstypMotpart: string,
    belopp: Option<FloatValue>,
    motpartsbolag: string,
    bolag: Cell,
    justeringstyp: string,
    aktualitet: Cell,
    period: Cell,
    sourceRowNumber: nat,
    perakt: Cell,
    verksamhetsgren: string,
    ktypkonc: string,
    vernr: string,
    vtyp: string,
    bol: Cell,
    konto: Cell)

  /** A selected row together with its helper column _period_date. */
  datatype Transformed = Transformed(fields: Fields, periodDate: Option<Date>)

  /** A row of the result, with its is_accumulated flag. */
  datatype OutRow = OutRow(fields: Fields, isAccumulated: bool)

  /** _parse_belopp: the amount as a float, or the text of the cast error it raises. Not modelled. */
  type ParseBelopp = string -> Result<FloatValue, string>

  function CleanRaw(r: RawRow): RawRow
  {
    RawRow(CleanCell(r.perakt), CleanCell(r.konto), CleanCell(r.motbol), CleanCell(r.belopp),
           CleanCell(r.bol), CleanCell(r.travkd), CleanCell(r.ktypkonc), CleanCell(r.vernr),
           CleanCell(r.vtyp))
  }

  /** fill_null(""). */
  function FillNull(c: Cell): (s: string)
    ensures c.Some? ==> s == c.value
    ensures c.None? ==> s == []
  {
    if c.Some? then c.value else ""
  }

  /** _parse_belopp on a cell: null stays null, a failed cast raises. */
  function ParseAmount(cell: Cell, parseBelopp: ParseBelopp): (r: Result<Option<FloatValue>, string>)
    ensures cell.None? ==> r == Ok(None)
    ensures cell.Some? ==> (r.Ok? <==> parseBelopp(cell.value).Ok?)
    ensures cell.Some? && r.Ok? ==> r.value == Some(parseBelopp(cell.value).value)
    ensures cell.Some? && r.Err? ==> r.error == parseBelopp(cell.value).error
  {
    match cell
    case None => Ok(None)
    case Some(text) =>
      match parseBelopp(text)
      case Err(e) => Err(e)
      case Ok(x) => Ok(Some(x))
  }

  /** The selected columns of one cleaned row, given its parsed period and amount. */
  function SelectFields(r: RawRow, number: nat, periodDate: Option<Date>, belopp: Option<FloatValue>): (f: Fields)
    ensures f.datatypCognos == DatatypCognos(r.konto) && f.konto == r.konto
    ensures f.justeringstypMotpart == Justeringstyp(r.motbol) && f.motpartsbolag == FillNull(r.motbol)
    ensures f.bolag == BolagId(r.bol) && f.justeringstyp == Justeringstyp(r.bol) && f.bol == r.bol
    ensures f.aktualitet == Aktualitet(r.perakt) && f.perakt == r.perakt
    ensures f.sourceRowNumber == number && f.period == FormatPeriodUs(periodDate) && f.belopp == belopp
    ensures f.verksamhetsgren == FillNull(r.travkd) && f.ktypkonc == FillNull(r.ktypkonc)
    ensures f.vernr == FillNull(r.vernr) && f.vtyp == FillNull(r.vtyp)
  {
    Fields(
      DatatypCognos(r.konto),
      Justeringstyp(r.motbol),
      belopp,
      FillNull(r.motbol),
      BolagId(r.bol),
      Justeringstyp(r.bol),
      Aktualitet(r.perakt),
      FormatPeriodUs(periodDate),
      number,
      r.perakt,
      FillNull(r.travkd),
      FillNull(r.ktypkonc),
      FillNull(r.vernr),
      FillNull(r.vtyp),
      r.bol,
      r.konto)
  }

  /** The select of read_and_transform on one cleaned row numbered `number`. */
  function TransformRow(r: RawRow, number: nat, parseBelopp: ParseBelopp): (t: Result<Transformed, string>)
    ensures t.Ok? <==> ParsePeriod(r.perakt).Ok? && ParseAmount(r.belopp, parseBelopp).Ok?
    ensures t.Ok? ==> t.value.periodDate == ParsePeriod(r.perakt).value
    ensures t.Ok? ==> t.value.fields == SelectFields(r, number, t.value.periodDate, ParseAmount(r.belopp, parseBelopp).value)
    ensures t.Ok? ==> t.value.fields.sourceRowNumber == number &&
                      t.value.fields.period == FormatPeriodUs(t.value.periodDate)
  {
    match ParsePeriod(r.perakt)
    case Err(e) => Err(e)
    case Ok(periodDate) =>
      match ParseAmount(r.belopp, parseBelopp)
      case Err(e) => Err(e)
      case Ok(belopp) => Ok(Transformed(SelectFields(r, number, periodDate, belopp), periodDate))
  }

  /** Apply a row function to every row, numbered from `first`; the first failing row fails the whole frame. */
  function SelectAll(rows: seq<RawRow>, first: nat, f: (RawRow, nat) -> Result<Transformed, string>)
    : (r: Result<seq<Transformed>, string>)
    ensures r.Ok? ==> |r.value| == |rows|
    ensures r.Ok? ==> forall i :: 0 <= i < |rows| ==> f(rows[i], first + i) == Ok(r.value[i])
    ensures r.Err? ==> exists i :: 0 <= i < |rows| && f(rows[i], first + i).Err?
  {
    if rows == [] then Ok([])
    else
      match f(rows[0], first)
      case Err(e) => Err(e)
      case Ok(t) =>
        match SelectAll(rows[1..], first + 1, f)
        case Err(e) =>
          var i :| 0 <= i < |rows| - 1 && f(rows[1..][i], first + 1 + i).Err?;
          assert rows[1..][i] == rows[i + 1];
          Err(e)
        case Ok(rest) =>
          var r := [t] + rest;
          assert forall i :: 1 <= i < |rows| ==> rows[i] == rows[1..][i - 1] && r[i] == rest[i - 1];
          Ok(r)
  }

  /** The select over all rows, numbered from `first`: it fails exactly when some row fails. */
  function TransformAll(rows: seq<RawRow>, first: nat, parseBelopp: ParseBelopp): (r: Result<seq<Transformed>, string>)
    ensures r.Ok? ==> |r.value| == |rows|
    ensures r.Ok? ==> forall i :: 0 <= i < |rows| ==> TransformRow(rows[i], first + i, parseBelopp) == Ok(r.value[i])
    ensures r.Err? ==> exists i :: 0 <= i < |rows| && TransformRow(rows[i], first + i, parseBelopp).Err?
  {
    SelectAll(rows, first, (row: RawRow, number: nat) => TransformRow(row, number, parseBelopp))
  }

  // ---------------------------------------------------------------------------
  // The expansion

  predicate NotDecember(t: Transformed)
  {
    t.periodDate.Some? && t.periodDate.value.month != 12
  }

  /** filter(month != 12): a null month compares as null and the row is dropped. */
  function NonDecember(ts: seq<Transformed>): (r: seq<Transformed>)
    ensures |r| <= |ts|
    ensures forall t :: t in r ==> t in ts && NotDecember(t)
    ensures forall i :: 0 <= i < |r| ==> NotDecember(r[i])
    ensures forall t :: t in ts && NotDecember(t) ==> t in r
  {
    if ts == [] then []
    else if NotDecember(ts[0]) then [ts[0]] + NonDecember(ts[1..])
    else NonDecember(ts[1..])
  }

  /** The filter keeps the input order: it distributes over concatenation. */
  lemma {:induction false} NonDecemberConcat(a: seq<Transformed>, b: seq<Transformed>)
    ensures NonDecember(a + b) == NonDecember(a) + NonDecember(b)
  {
    if a == [] {
      assert a + b == b;
    } else {
      var ab := a + b;
      assert ab[0] == a[0] && ab[1..] == a[1..] + b;
      NonDecemberConcat(a[1..], b);
      if NotDecember(a[0]) {
        calc {
          NonDecember(ab);
          [a[0]] + NonDecember(a[1..] + b);
          [a[0]] + (NonDecember(a[1..]) + NonDecember(b));
          ([a[0]] + NonDecember(a[1..])) + NonDecember(b);
        }
      }
    }
  }

  /** Multiplication by -1: a finite amount changes sign, the infinities swap, NaN and null stay. */
  function Negate(x: Option<FloatValue>): (r: Option<FloatValue>)
    ensures r.None? <==> x.None?
    ensures x.Some? && x.value.Finite? ==> r == Some(Finite(-x.value.x))
    ensures x == Some(NaN) ==> r == Some(NaN)
    ensures x == Some(PosInf) <==> r == Some(NegInf)
    ensures x == Some(NegInf) <==> r == Some(PosInf)
  {
    match x
    case None => None
    case Some(Finite(v)) => Some(Finite(-v))
    case Some(NaN) => Some(NaN)
    case Some(PosInf) => Some(NegInf)
    case Some(NegInf) => Some(PosInf)
  }

  /** Negating twice gives the amount back; NaN stays NaN and the infinities swap. */
  lemma NegateInvolution(x: Option<FloatValue>)
    ensures Negate(Negate(x)) == x
    ensures x == Some(NaN) ==> Negate(x) == x
    ensures x == Some(PosInf) <==> Negate(x) == Some(NegInf)
  {
  }

  /** The avack row: one month later, the amount negated. */
  function Deaccumulate(t: Transformed): (r: Transformed)
    requires NotDecember(t)
  {
    var d := t.periodDate.value;
    var shifted := Some(NextMonth(d));
    Transformed(t.fields.(period := FormatPeriodUs(shifted), belopp := Negate(t.fields.belopp)), shifted)
  }

  /**
   * The de-accumulated row stays in the same year, one month later, with its
   * amount negated and every other column unchanged.
   */
  lemma DeaccumulateShiftsOneMonth(t: Transformed)
    requires NotDecember(t) && ValidMonth(t.periodDate.value)
    ensures var r := Deaccumulate(t);
      var d := t.periodDate.value;
      r.periodDate == Some(Date(d.year, d.month + 1, d.day)) && d.month + 1 <= 12 &&
      r.fields.period == FormatPeriodUs(r.periodDate) &&
      r.fields.belopp == Negate(t.fields.belopp) &&
      r.fields.(period := t.fields.period, belopp := t.fields.belopp) == t.fields
  {
  }

  function Flagged(ts: seq<Transformed>, accumulated: bool): (r: seq<OutRow>)
    ensures |r| == |ts|
    ensures forall i :: 0 <= i < |ts| ==> r[i] == OutRow(ts[i].fields, accumulated)
  {
    seq(|ts|, i requires 0 <= i < |ts| => OutRow(ts[i].fields, accumulated))
  }

  function DeaccumulateAll(ts: seq<Transformed>): (r: seq<Transformed>)
    requires forall t :: t in ts ==> NotDecember(t)
    ensures |r| == |ts|
    ensures forall i :: 0 <= i < |ts| ==> r[i] == Deaccumulate(ts[i])
  {
    seq(|ts|, i requires 0 <= i < |ts| => Deaccumulate(ts[i]))
  }

  /** concat([accumulated, ursprung, avack]) with _period_date dropped. */
  function Expand(ts: seq<Transformed>): (out: seq<OutRow>)
  {
    Flagged(ts, true) + Flagged(ts, false) + Flagged(DeaccumulateAll(NonDecember(ts)), false)
  }

  /**
   * The result has 2n + (non-December rows) rows: n accumulated copies, n
   * originals, then one de-accumulated row per non-December row, in input order.
   */
  lemma {:induction false} ExpandLayout(ts: seq<Transformed>)
    ensures var out := Expand(ts);
      var n := |ts|;
      var nd := NonDecember(ts);
      |out| == 2 * n + |nd| &&
      (forall i :: 0 <= i < n ==> out[i] == OutRow(ts[i].fields, true)) &&
      (forall i :: 0 <= i < n ==> out[n + i] == OutRow(ts[i].fields, false)) &&
      (forall j :: 0 <= j < |nd| ==> out[2 * n + j] == OutRow(Deaccumulate(nd[j]).fields, false))
  {
    var n := |ts|;
    var a := Flagged(ts, true);
    var b := Flagged(ts, false);
    var c := Flagged(DeaccumulateAll(NonDecember(ts)), false);
    var out := a + b + c;
    assert forall i :: 0 <= i < n ==> out[i] == a[i];
    assert forall i :: 0 <= i < n ==> out[n + i] == b[i];
    assert forall j :: 0 <= j < |c| ==> out[2 * n + j] == c[j];
  }

  /** Only rows with a non-December period produce a de-accumulated row. */
  lemma {:induction false} NonDecemberCount(ts: seq<Transformed>)
    ensures |NonDecember(ts)| == |ts| - |Excluded(ts)|
  {
    if ts != [] {
      NonDecemberCount(ts[1..]);
    }
  }

  /** The rows the filter drops: December rows and rows without a period. */
  function Excluded(ts: seq<Transformed>): (r: seq<Transformed>)
    ensures forall t :: t in r ==> t in ts && !NotDecember(t)
  {
    if ts == [] then []
    else if NotDecember(ts[0]) then Excluded(ts[1..])
    else [ts[0]] + Excluded(ts[1..])
  }

  /** Every row of the de-accumulated tail is flagged false and sits one month after a source row. */
  lemma {:induction false} TailRowsShifted(ts: seq<Transformed>, j: nat)
    requires forall t :: t in ts ==> t.periodDate.Some? ==> ValidMonth(t.periodDate.value)
    requires j < |NonDecember(ts)|
    ensures var out := Expand(ts);
      var src := NonDecember(ts)[j];
      var d := src.periodDate.value;
      2 * |ts| + j < |out| && src in ts && !out[2 * |ts| + j].isAccumulated &&
      out[2 * |ts| + j].fields.period == FormatPeriodUs(Some(Date(d.year, d.month + 1, d.day))) &&
      out[2 * |ts| + j].fields.belopp == Negate(src.fields.belopp)
  {
    ExpandLayout(ts);
    var src := NonDecember(ts)[j];
    assert src in NonDecember(ts);
    DeaccumulateShiftsOneMonth(src);
  }

  /**
   * read_and_transform on rows already read from the file: clean every cell,
   * number rows from 1, select, then expand. A cast error fails the whole call.
   */
  function ReadAndTransform(rows: seq<RawRow>, parseBelopp: ParseBelopp): (r: Result<seq<OutRow>, string>)
    ensures r.Ok? ==> |r.value| >= 2 * |rows|
  {
    var cleaned := seq(|rows|, i requires 0 <= i < |rows| => CleanRaw(rows[i]));
    match TransformAll(cleaned, 1, parseBelopp)
    case Err(e) => Err(e)
    case Ok(ts) =>
      ExpandLayout(ts);
      Ok(Expand(ts))
  }

  /** The i-th accumulated row carries source row number i + 1 and the period text of its own date. */
  lemma {:induction false} RowsNumberedFromOne(rows: seq<RawRow>, parseBelopp: ParseBelopp, i: nat)
    requires ReadAndTransform(rows, parseBelopp).Ok?
    requires i < |rows|
    ensures var out := ReadAndTransform(rows, parseBelopp).value;
      out[i].isAccumulated && out[i].fields.sourceRowNumber == i + 1 &&
      !out[|rows| + i].isAccumulated && out[|rows| + i].fields == out[i].fields
  {
    var cleaned := seq(|rows|, k requires 0 <= k < |rows| => CleanRaw(rows[k]));
    var ts := TransformAll(cleaned, 1, parseBelopp).value;
    ExpandLayout(ts);
  }
}
