/** Normalisation of dish records received from the backend and the difficulty
    labels (types/dish.ts).  JavaScript numbers are modelled as integers and
    values typed `string | number | undefined` as small sum types. */
module Dish {
  import opened Wrappers
  import opened Text

  // ---------------------------------------------------------------------------
  // Difficulty levels

  datatype Level = Easy | Medium | Hard

  /** The level's English name, as the backend stores it. */
  function LevelName(l: Level): string {
    match l
    case Easy => "easy"
    case Medium => "medium"
    case Hard => "hard"
  }

  /** Order of difficulty. */
  function Rank(l: Level): nat {
    match l
    case Easy => 0
    case Medium => 1
    case Hard => 2
  }

  /** A value typed `string | number | undefined | null`. */
  datatype Loose = LNone | LStr(s: string) | LNum(n: int)

  /** JavaScript truthiness of a loose value. */
  predicate LooseTruthy(v: Loose) {
    match v
    case LNone => false
    case LStr(s) => s != ""
    case LNum(n) => n != 0
  }

  /** `a || b`. */
  function LooseOr(a: Loose, b: Loose): Loose {
    if LooseTruthy(a) then a else b
  }

  // Vietnamese spellings, written with escapes: "dễ", "trung bình", "khó" and the
  // capitalised display labels "Dễ", "Trung bình", "Khó".
  const De: string := "d\U{1EC5}"
  const TrungBinh: string := "trung b\U{00EC}nh"
  const Kho: string := "kh\U{00F3}"
  const DisplayEasy: string := "D\U{1EC5}"
  const DisplayMedium: string := "Trung b\U{00EC}nh"
  const DisplayHard: string := "Kh\U{00F3}"

  /** The spellings each level accepts once lower-cased and trimmed. */
  const EasyKeys: set<string> := {"easy", De, "de", "1"}
  const MediumKeys: set<string> := {"medium", TrungBinh, "trungbinh", "trung binh", "tb", "2"}
  const HardKeys: set<string> := {"hard", Kho, "kho", "3"}

  /** `String(level).toLowerCase().trim()`. */
  function LevelKey(level: Loose): string
    requires level != LNone
  {
    match level
    case LStr(s) => Trim(ToLower(s))
    case LNum(n) => Trim(ToLower(IntToString(n)))
  }

  /** The `switch` of `normalizeLevel` on a lower-cased, trimmed spelling. */
  function LevelOfKey(key: string): (l: Level)
    ensures key in EasyKeys ==> l == Easy
    ensures key in MediumKeys ==> l == Medium
    ensures key in HardKeys ==> l == Hard
    ensures key !in EasyKeys + MediumKeys + HardKeys ==> l == Easy
  {
    if key in MediumKeys then Medium
    else if key in HardKeys then Hard
    else Easy
  }

  /** `normalizeLevel`: always one of the three levels; easy for a missing or
      empty value, otherwise the level its lower-cased, trimmed spelling names. */
  function NormalizeLevel(level: Loose): (l: Level)
    ensures level == LNone || level == LStr("") ==> l == Easy
  {
    if level == LNone || level == LStr("") then Easy
    else LevelOfKey(LevelKey(level))
  }

  /** `deriveLevel`: up to 15 minutes is easy, up to 45 medium, beyond that hard. */
  function DeriveLevel(minutes: int): (l: Level)
    ensures l == Easy <==> minutes <= 15
    ensures l == Hard <==> minutes > 45
  {
    if minutes <= 15 then Easy
    else if minutes <= 45 then Medium
    else Hard
  }

  /** A longer cooking time never gives an easier level. */
  lemma DeriveLevelMonotone(m1: int, m2: int)
    requires m1 <= m2
    ensures Rank(DeriveLevel(m1)) <= Rank(DeriveLevel(m2))
  {
  }

  /** `getDifficultyDisplay`: the Vietnamese label; easy's label when no level is given. */
  function DifficultyDisplay(level: Option<Level>): string {
    match level
    case None => DisplayEasy
    case Some(Easy) => DisplayEasy
    case Some(Medium) => DisplayMedium
    case Some(Hard) => DisplayHard
  }

  /** `mapDifficultyToEnglish`: the level of a trimmed Vietnamese label, easy otherwise. */
  function DifficultyToEnglish(text: string): (l: Level)
    ensures Trim(text) == DisplayMedium ==> l == Medium
    ensures Trim(text) == DisplayHard ==> l == Hard
    ensures Trim(text) != DisplayMedium && Trim(text) != DisplayHard ==> l == Easy
  {
    var t := Trim(text);
    if t == DisplayEasy then Easy
    else if t == DisplayMedium then Medium
    else if t == DisplayHard then Hard
    else Easy
  }

  /** The display label of a level maps back to that level, both through
      `mapDifficultyToEnglish` and through `normalizeLevel`. */
  lemma DisplayRoundTrip(l: Level)
    ensures DifficultyToEnglish(DifficultyDisplay(Some(l))) == l
    ensures NormalizeLevel(LStr(DifficultyDisplay(Some(l)))) == l
  {
    LowerDisplays();
    match l {
      case Easy => KeyRoundTrip(DisplayEasy, De);
      case Medium => KeyRoundTrip(DisplayMedium, TrungBinh);
      case Hard => KeyRoundTrip(DisplayHard, Kho);
    }
  }

  lemma LowerDisplays()
    ensures ToLower(DisplayEasy) == De
    ensures ToLower(DisplayMedium) == TrungBinh
    ensures ToLower(DisplayHard) == Kho
  {
  }

  /** The English names are read back as the same level. */
  lemma NameRoundTrip(l: Level)
    ensures NormalizeLevel(LStr(LevelName(l))) == l
  {
    match l {
      case Easy => KeyRoundTrip("easy", "easy");
      case Medium => KeyRoundTrip("medium", "medium");
      case Hard => KeyRoundTrip("hard", "hard");
    }
  }

  /** An unpadded spelling whose lower-case form is `key` is read through `key`. */
  lemma KeyRoundTrip(s: string, key: string)
    requires s != [] && !IsSpace(s[0]) && !IsSpace(s[|s| - 1])
    requires ToLower(s) == key && !IsSpace(key[0]) && !IsSpace(key[|key| - 1])
    ensures Trim(s) == s
    ensures NormalizeLevel(LStr(s)) == LevelOfKey(key)
  {
    TrimOfUnpadded(s);
    TrimOfUnpadded(key);
  }

  /** A string without leading or trailing whitespace trims to itself. */
  lemma TrimOfUnpadded(s: string)
    requires s != [] && !IsSpace(s[0]) && !IsSpace(s[|s| - 1])
    ensures Trim(s) == s
  {
    assert FirstNonSpace(s) == 0;
    assert s[0..] == s;
    assert EndNonSpace(s) == |s|;
  }

  // ---------------------------------------------------------------------------
  // Cooking time as text

  const Minutes: string := " ph\U{00FA}t"

  /** The digits of a string matching `/^PT(\d+)M$/i`, if it matches. */
  function IsoDigits(s: string): (r: Option<string>)
    ensures r.Some? ==> |r.value| >= 1 && AllDigits(r.value)
  {
    if |s| >= 4 && LowerChar(s[0]) == 'p' && LowerChar(s[1]) == 't'
       && LowerChar(s[|s| - 1]) == 'm' && AllDigits(s[2..|s| - 1])
    then Some(s[2..|s| - 1])
    else None
  }

  /** Hours and minutes of a string matching `/^(\d{1,2}):(\d{2})/`, if it matches. */
  function HourMinute(s: string): (r: Option<(string, string)>)
    ensures r.Some? ==> |r.value.0| >= 1 && AllDigits(r.value.0) && |r.value.1| == 2 && AllDigits(r.value.1)
  {
    if |s| >= 4 && IsDigit(s[0]) && s[1] == ':' && IsDigit(s[2]) && IsDigit(s[3]) then
      Some((s[..1], s[2..4]))
    else if |s| >= 5 && IsDigit(s[0]) && IsDigit(s[1]) && s[2] == ':' && IsDigit(s[3]) && IsDigit(s[4]) then
      Some((s[..2], s[3..5]))
    else None
  }

  /** `toMinutesStr`: a number or a plain digit string gets the unit, an ISO
      duration or an `h:mm` prefix is converted to minutes, a missing or empty
      value reads as zero minutes, and any other text is kept as it is. */
  function ToMinutesStr(v: Loose): (r: string)
    ensures v.LNum? ==> r == IntToString(v.n) + Minutes
    ensures v == LNone || v == LStr("") ==> r == "0" + Minutes
    ensures v.LStr? && v.s != "" && AllDigits(v.s) ==> r == v.s + Minutes
    ensures v.LStr? && !AllDigits(v.s) && IsoDigits(v.s) == None && HourMinute(v.s) == None ==> r == v.s
  {
    match v
    case LNum(n) => IntToString(n) + Minutes
    case LNone => "0" + Minutes
    case LStr(s) =>
      if s == "" then "0" + Minutes
      else if AllDigits(s) then s + Minutes
      else match IsoDigits(s)
        case Some(d) => NatToString(DigitsValue(d)) + Minutes
        case None =>
          match HourMinute(s)
          case Some(hm) => NatToString(DigitsValue(hm.0) * 60 + DigitsValue(hm.1)) + Minutes
          case None => s
  }

  /** An ISO duration "PT{digits}M" in any letter case is read as that many
      minutes: unchanged when written without leading zeros, and leading zeros
      make no difference. */
  lemma IsoDuration(ds: string, zeros: nat, p: char, t: char, m: char)
    requires p == 'P' || p == 'p'
    requires t == 'T' || t == 't'
    requires m == 'M' || m == 'm'
    requires |ds| >= 1 && AllDigits(ds) && (|ds| > 1 ==> ds[0] != '0')
    ensures ToMinutesStr(LStr([p, t] + ds + [m])) == ds + Minutes
    ensures ToMinutesStr(LStr([p, t] + Repeat('0', zeros) + ds + [m])) == ds + Minutes
  {
    NatToStringOfDigitsValue(ds);
    IsoMinutes(p, t, ds, m);
    IsoPadded(p, t, Repeat('0', zeros), ds, m);
  }

  /** Leading zeros before the digits of "PT{digits}M" do not change the value. */
  lemma IsoPadded(p: char, t: char, zs: string, ds: string, m: char)
    requires p == 'P' || p == 'p'
    requires t == 'T' || t == 't'
    requires m == 'M' || m == 'm'
    requires |ds| >= 1 && AllDigits(ds) && zs == Repeat('0', |zs|)
    ensures ToMinutesStr(LStr([p, t] + zs + ds + [m])) == NatToString(DigitsValue(ds)) + Minutes
  {
    LeadingZerosValue(|zs|, ds);
    assert [p, t] + zs + ds + [m] == [p, t] + (zs + ds) + [m];
    IsoMinutes(p, t, zs + ds, m);
  }

  /** "PT{digits}M" reads as the digits' value in minutes. */
  lemma IsoMinutes(p: char, t: char, ds: string, m: char)
    requires p == 'P' || p == 'p'
    requires t == 'T' || t == 't'
    requires m == 'M' || m == 'm'
    requires |ds| >= 1 && AllDigits(ds)
    ensures ToMinutesStr(LStr([p, t] + ds + [m])) == NatToString(DigitsValue(ds)) + Minutes
  {
    IsoDigitsOf(p, t, ds, m);
    IsoBranch([p, t] + ds + [m], ds);
  }

  lemma IsoDigitsOf(p: char, t: char, ds: string, m: char)
    requires p == 'P' || p == 'p'
    requires t == 'T' || t == 't'
    requires m == 'M' || m == 'm'
    requires |ds| >= 1 && AllDigits(ds)
    ensures var s := [p, t] + ds + [m];
            s != "" && !AllDigits(s) && IsoDigits(s) == Some(ds)
  {
    var s := [p, t] + ds + [m];
    assert s[2..|s| - 1] == ds;
    assert !IsDigit(s[0]);
  }

  /** The ISO branch of `toMinutesStr`, on its own. */
  lemma IsoBranch(s: string, ds: string)
    requires s != "" && !AllDigits(s) && IsoDigits(s) == Some(ds)
    ensures ToMinutesStr(LStr(s)) == NatToString(DigitsValue(ds)) + Minutes
  {
  }

  /** The `h:mm` branch of `toMinutesStr`, on its own. */
  lemma HourMinuteBranch(s: string, hs: string, ms: string)
    requires s != "" && !AllDigits(s) && IsoDigits(s) == None && HourMinute(s) == Some((hs, ms))
    ensures ToMinutesStr(LStr(s)) == NatToString(DigitsValue(hs) * 60 + DigitsValue(ms)) + Minutes
  {
  }

  /** "h:mm" (with any suffix) is read as h * 60 + mm minutes. */
  lemma HourMinuteDuration(hs: string, ms: string, rest: string)
    requires 1 <= |hs| <= 2 && AllDigits(hs) && |ms| == 2 && AllDigits(ms)
    ensures ToMinutesStr(LStr(hs + [':'] + ms + rest))
              == NatToString(DigitsValue(hs) * 60 + DigitsValue(ms)) + Minutes
  {
    var s := hs + [':'] + ms + rest;
    assert !AllDigits(s) by { assert !IsDigit(s[|hs|]); }
    assert IsoDigits(s) == None by { assert LowerChar(s[0]) != 'p'; }
    if |hs| == 1 {
      assert s[..1] == hs && s[2..4] == ms;
    } else {
      assert s[..2] == hs && s[3..5] == ms;
    }
    HourMinuteBranch(s, hs, ms);
  }

  function Repeat(c: char, n: nat): (r: string)
    ensures |r| == n && forall i :: 0 <= i < n ==> r[i] == c
  {
    if n == 0 then [] else [c] + Repeat(c, n - 1)
  }

  lemma {:induction false} LeadingZerosValue(zeros: nat, ds: string)
    requires AllDigits(ds)
    ensures AllDigits(Repeat('0', zeros) + ds)
    ensures DigitsValue(Repeat('0', zeros) + ds) == DigitsValue(ds)
    decreases |ds|
  {
    var s := Repeat('0', zeros) + ds;
    if ds == [] {
      assert s == Repeat('0', zeros);
      ZerosValue(zeros);
    } else {
      var p := ds[..|ds| - 1];
      LeadingZerosValue(zeros, p);
      assert s[..|s| - 1] == Repeat('0', zeros) + p;
      assert s[|s| - 1] == ds[|ds| - 1];
    }
  }

  lemma {:induction false} ZerosValue(n: nat)
    ensures AllDigits(Repeat('0', n)) && DigitsValue(Repeat('0', n)) == 0
  {
    if n > 0 {
      ZerosValue(n - 1);
      var r := Repeat('0', n);
      assert r[..n - 1] == Repeat('0', n - 1);
    }
  }

  // ---------------------------------------------------------------------------
  // Extracting minutes from text

  /** The bounds of the first maximal run of digits in `s`, if any. */
  function FirstDigitRun(s: string, from: nat := 0): (r: Option<(nat, nat)>)
    requires from <= |s|
    ensures r.None? ==> forall k :: from <= k < |s| ==> !IsDigit(s[k])
    ensures r.Some? ==>
              var (i, j) := r.value;
              from <= i < j <= |s| && AllDigits(s[i..j])
              && (forall k :: from <= k < i ==> !IsDigit(s[k]))
              && (j == |s| || !IsDigit(s[j]))
    decreases |s| - from
  {
    if from == |s| then None
    else if IsDigit(s[from]) then Some((from, RunEnd(s, from)))
    else FirstDigitRun(s, from + 1)
  }

  function RunEnd(s: string, i: nat): (j: nat)
    requires i <= |s|
    ensures i <= j <= |s| && AllDigits(s[i..j]) && (j == |s| || !IsDigit(s[j]))
    decreases |s| - i
  {
    if i < |s| && IsDigit(s[i]) then
      var j := RunEnd(s, i + 1);
      assert forall k :: 1 <= k < j - i ==> s[i..j][k] == s[i + 1..j][k - 1];
      j
    else i
  }

  /** `extractMinutes`: a number is returned as it is, text gives the value of its
      first run of digits, and anything without digits gives 0. */
  function ExtractMinutes(v: Loose): (m: int)
    ensures v.LNum? ==> m == v.n
    ensures v.LStr? && FirstDigitRun(v.s).Some? ==>
              m == DigitsValue(v.s[FirstDigitRun(v.s).value.0..FirstDigitRun(v.s).value.1])
    ensures v == LNone || (v.LStr? && forall k :: 0 <= k < |v.s| ==> !IsDigit(v.s[k])) ==> m == 0
  {
    match v
    case LNum(n) => n
    case LNone => 0
    case LStr(s) =>
      if s == "" then 0
      else match FirstDigitRun(s)
        case None => 0
        case Some((i, j)) => DigitsValue(s[i..j])
  }

  /** Reading the minutes back out of a "{n} phút" label gives n. */
  lemma ExtractMinutesOfLabel(n: nat)
    ensures ExtractMinutes(LStr(NatToString(n) + Minutes)) == n
  {
    var d := NatToString(n);
    var s := d + Minutes;
    assert IsDigit(s[0]);
    assert RunEnd(s, 0) == |d| by {
      RunEndOverDigits(s, 0, |d|);
    }
    assert s[0..|d|] == d;
    DigitsValueOfNatToString(n);
  }

  lemma {:induction false} RunEndOverDigits(s: string, i: nat, j: nat)
    requires i <= j < |s| && AllDigits(s[i..j]) && !IsDigit(s[j])
    ensures RunEnd(s, i) == j
    decreases j - i
  {
    if i < j {
      assert IsDigit(s[i..j][0]);
      assert s[i + 1..j] == s[i..j][1..];
      RunEndOverDigits(s, i + 1, j);
    }
  }

  /** `extractMinutes` undoes `toMinutesStr` on non-negative numbers. */
  lemma ExtractMinutesUndoesToMinutes(n: nat)
    ensures ExtractMinutes(LStr(ToMinutesStr(LNum(n)))) == n
  {
    ExtractMinutesOfLabel(n);
  }

  // ---------------------------------------------------------------------------
  // Dish records

  /** The fields of a dish as the backend may send them (`DishApi`). */
  datatype DishApi = DishApi(
    id: int,
    image: Option<string>, imageUrl: Option<string>,
    time: Loose, prepTimeMin: Option<int>, cookingTime: Option<int>,
    labelText: Option<string>, title: Option<string>, name: Option<string>,
    ingredients: Option<seq<string>>, steps: Option<seq<string>>,
    star: Option<int>, rating: Option<int>, averageRating: Option<int>,
    isFavorite: Option<bool>, isFavoriteSnake: Option<bool>,
    level: Loose, difficulty: Loose)

  /** A normalised dish.  `image` and `label` are optional because the list
      normaliser copies fields that may be missing. */
  datatype Dish = Dish(
    id: int, image: Option<string>, time: string, labelText: Option<string>,
    ingredients: seq<string>, steps: seq<string>, star: int, isFavorite: bool, level: Level)

  /** `v` is the first present value of `xs`, or `default` when none is present:
      the meaning of a chain `xs[0] ?? xs[1] ?? ... ?? default`. */
  ghost predicate FirstPresent<T>(xs: seq<Option<T>>, default: T, v: T) {
    (exists i :: 0 <= i < |xs| && xs[i].Some? && xs[i].value == v && forall j :: 0 <= j < i ==> xs[j].None?)
    || ((forall j :: 0 <= j < |xs| ==> xs[j].None?) && v == default)
  }

  /** The `??` chain of `normalizeDish`, evaluated left to right. */
  function Coalesce<T>(xs: seq<Option<T>>, default: T): (v: T)
    ensures FirstPresent(xs, default, v)
  {
    if xs == [] then default
    else if xs[0].Some? then xs[0].value
    else
      var v := Coalesce(xs[1..], default);
      assert forall j :: 1 <= j < |xs| ==> xs[j] == xs[1..][j - 1];
      v
  }

  /** The time value `toMinutesStr` receives: `time ?? cooking_time ?? prep_time_min ?? 0`. */
  function TimeSource(api: DishApi): Loose {
    if api.time != LNone then api.time
    else LNum(Coalesce([api.cookingTime, api.prepTimeMin], 0))
  }

  /** `normalizeDish`: each field is the first present of its alternatives, and the
      level comes from `difficulty || level` only, never from the cooking time. */
  function NormalizeDish(api: DishApi): (d: Dish)
    ensures d.id == api.id
    ensures d.image.Some? && FirstPresent([api.image, api.imageUrl], "", d.image.value)
    ensures d.labelText.Some? && FirstPresent([api.labelText, api.title, api.name], "", d.labelText.value)
    ensures FirstPresent([api.star, api.rating, api.averageRating], 0, d.star)
    ensures FirstPresent([api.isFavorite, api.isFavoriteSnake], false, d.isFavorite)
    ensures d.ingredients == api.ingredients.GetOr([]) && d.steps == api.steps.GetOr([])
    ensures d.level == NormalizeLevel(LooseOr(api.difficulty, api.level))
    ensures api.time != LNone ==> d.time == ToMinutesStr(api.time)
    ensures api.time == LNone ==>
              exists m :: FirstPresent([api.cookingTime, api.prepTimeMin], 0, m) && d.time == IntToString(m) + Minutes
  {
    Dish(
      api.id,
      Some(Coalesce([api.image, api.imageUrl], "")),
      ToMinutesStr(TimeSource(api)),
      Some(Coalesce([api.labelText, api.title, api.name], "")),
      api.ingredients.GetOr([]),
      api.steps.GetOr([]),
      Coalesce([api.star, api.rating, api.averageRating], 0),
      Coalesce([api.isFavorite, api.isFavoriteSnake], false),
      NormalizeLevel(LooseOr(api.difficulty, api.level)))
  }

  /** A dish with no usable difficulty or level is easy whatever its cooking time. */
  lemma NormalizeDishIgnoresCookingTime(api: DishApi, t: Option<int>)
    ensures NormalizeDish(api).level == NormalizeDish(api.(cookingTime := t)).level
    ensures !LooseTruthy(api.difficulty) && !LooseTruthy(api.level) ==> NormalizeDish(api).level == Easy
  {
    if !LooseTruthy(api.difficulty) && !LooseTruthy(api.level) && api.level.LNum? {
      assert api.level == LNum(0);
      ZeroLevelIsEasy();
    }
  }

  /** A numeric level of 0 reads as the key "0", which names no level. */
  lemma ZeroLevelIsEasy()
    ensures NormalizeLevel(LNum(0)) == Easy
  {
    assert IntToString(0) == "0";
    assert ToLower("0") == "0";
    assert !IsSpace('0');
    TrimOfUnpadded("0");
    assert "0" !in MediumKeys && "0" !in HardKeys;
  }

  /** One entry of the list endpoint's response, as `normalizeDishList` reads it. */
  datatype DishListItem = DishListItem(
    id: int, imageUrl: Option<string>, imageB64: Option<string>, imageMime: Option<string>,
    cookingTime: Option<int>, name: Option<string>,
    ingredients: Option<seq<string>>, steps: Option<seq<string>>, instructions: Option<seq<string>>,
    averageRating: Option<int>, difficulty: Loose, level: Loose)

  predicate NonEmpty(s: Option<string>) {
    s.Some? && s.value != ""
  }

  /** The mapping applied to each list entry. */
  function NormalizeListItem(item: DishListItem): (d: Dish)
    ensures d.id == item.id && d.labelText == item.name && !d.isFavorite
    ensures NonEmpty(item.imageB64) && NonEmpty(item.imageMime) ==>
              d.image == Some("data:" + item.imageMime.value + ";base64," + item.imageB64.value)
    ensures !(NonEmpty(item.imageB64) && NonEmpty(item.imageMime)) ==> d.image == item.imageUrl
    ensures FirstPresent([item.steps, item.instructions], [], d.steps)
    ensures d.level == NormalizeLevel(LooseOr(item.difficulty, item.level))
    ensures d.time == IntToString(item.cookingTime.GetOr(0)) + Minutes
    ensures d.ingredients == item.ingredients.GetOr([]) && d.star == item.averageRating.GetOr(0)
  {
    var image :=
      if NonEmpty(item.imageB64) && NonEmpty(item.imageMime)
      then Some("data:" + item.imageMime.value + ";base64," + item.imageB64.value)
      else item.imageUrl;
    var minutes := if item.cookingTime.Some? && item.cookingTime.value != 0 then item.cookingTime.value else 0;
    Dish(
      item.id, image, IntToString(minutes) + Minutes, item.name,
      item.ingredients.GetOr([]),
      Coalesce([item.steps, item.instructions], []),
      item.averageRating.GetOr(0),
      false,
      NormalizeLevel(LooseOr(item.difficulty, item.level)))
  }

  /** The time label of a list entry reads back as its cooking time (0 when missing). */
  lemma ListItemTime(item: DishListItem)
    requires item.cookingTime.Some? ==> item.cookingTime.value >= 0
    ensures ExtractMinutes(LStr(NormalizeListItem(item).time)) == item.cookingTime.GetOr(0)
  {
    var m := if item.cookingTime.Some? && item.cookingTime.value != 0 then item.cookingTime.value else 0;
    ExtractMinutesOfLabel(m);
  }

  /** `normalizeDishList`: one dish per entry, in the same order. */
  function NormalizeDishList(items: seq<DishListItem>): (ds: seq<Dish>)
    ensures |ds| == |items|
    ensures forall i :: 0 <= i < |items| ==> ds[i] == NormalizeListItem(items[i])
  {
    seq(|items|, i requires 0 <= i < |items| => NormalizeListItem(items[i]))
  }
}
