/**
 * The settings page: the uptime line, the storage gauge (percentage, bar
 * colour and "Nearly full" note) and the form state, a record of named
 * settings that each input replaces one key of.
 */
module SettingsPage {
  import opened Common
  import opened Numbers
  import opened Clock

  // ---------------------------------------------------------------- uptime

  /** `stats?.uptime || 0`: missing and 0 both count as no uptime. */
  function UptimeSeconds(uptime: Option<int>): int {
    if TruthyNumber(uptime) then uptime.value else 0
  }

  /** getUptimeString: "Dd Hh Mm" from a day on, "Hh Mm" from an hour on, else "Mm". */
  function UptimeString(uptime: Option<int>): (r: string)
    ensures !TruthyNumber(uptime) ==> r == "0m"
    ensures var u := UptimeSeconds(uptime);
      u >= 86400 ==> ReadFields(r, ' ') == [Some(u / 86400), Some(u % 86400 / 3600), Some(u % 3600 / 60)]
    ensures var u := UptimeSeconds(uptime);
      3600 <= u < 86400 ==> ReadFields(r, ' ') == [Some(u / 3600), Some(u % 3600 / 60)]
    ensures var u := UptimeSeconds(uptime);
      0 <= u < 3600 ==> ReadFields(r, ' ') == [Some(u / 60)]
  {
    var u := UptimeSeconds(uptime);
    var days := u / 86400;
    var hours := JsRem(u, 86400) / 3600;
    var minutes := JsRem(u, 3600) / 60;
    UptimeFieldsRead(u);
    UptimeBranches(u);
    if days > 0 then Unit(days, 'd') + " " + Unit(hours, 'h') + " " + Unit(minutes, 'm')
    else if hours > 0 then Unit(hours, 'h') + " " + Unit(minutes, 'm')
    else Unit(minutes, 'm')
  }

  lemma UptimeFieldsRead(u: int)
    ensures u >= 86400 ==>
      ReadFields(Unit(u / 86400, 'd') + " " + Unit(JsRem(u, 86400) / 3600, 'h') + " " + Unit(JsRem(u, 3600) / 60, 'm'), ' ')
      == [Some(u / 86400), Some(u % 86400 / 3600), Some(u % 3600 / 60)]
    ensures 3600 <= u < 86400 ==>
      ReadFields(Unit(JsRem(u, 86400) / 3600, 'h') + " " + Unit(JsRem(u, 3600) / 60, 'm'), ' ')
      == [Some(u / 3600), Some(u % 3600 / 60)]
    ensures 0 <= u < 3600 ==> ReadFields(Unit(JsRem(u, 3600) / 60, 'm'), ' ') == [Some(u / 60)]
    ensures u == 0 ==> Unit(JsRem(u, 3600) / 60, 'm') == "0m"
  {
    if u >= 86400 {
      DaysRead(u);
    } else if u >= 3600 {
      HoursRead(u);
    } else if u >= 0 {
      MinutesRead(u);
    }
    if u == 0 {
      ZeroMinutes(u);
    }
  }

  /** For a non-negative uptime the day and hour tests are u >= 86400 and u >= 3600; a negative one prints minutes. */
  lemma UptimeBranches(u: int)
    ensures u >= 0 ==> (u / 86400 > 0 <==> u >= 86400)
    ensures 0 <= u < 86400 ==> (JsRem(u, 86400) / 3600 > 0 <==> u >= 3600)
    ensures u < 0 ==> u / 86400 <= 0 && JsRem(u, 86400) / 3600 <= 0
  {
  }

  lemma DaysRead(u: int)
    requires u >= 86400
    ensures ReadFields(Unit(u / 86400, 'd') + " " + Unit(JsRem(u, 86400) / 3600, 'h') + " " + Unit(JsRem(u, 3600) / 60, 'm'), ' ')
      == [Some(u / 86400), Some(u % 86400 / 3600), Some(u % 3600 / 60)]
  {
    var d, h, m := u / 86400, u % 86400 / 3600, u % 3600 / 60;
    assert JsRem(u, 86400) / 3600 == h && JsRem(u, 3600) / 60 == m;
    ThreeUnitsRead(d, 'd', h, 'h', m, 'm');
  }

  lemma HoursRead(u: int)
    requires 3600 <= u < 86400
    ensures ReadFields(Unit(JsRem(u, 86400) / 3600, 'h') + " " + Unit(JsRem(u, 3600) / 60, 'm'), ' ')
      == [Some(u / 3600), Some(u % 3600 / 60)]
  {
    var h, m := u / 3600, u % 3600 / 60;
    assert JsRem(u, 86400) == u;
    assert JsRem(u, 86400) / 3600 == h && JsRem(u, 3600) / 60 == m;
    TwoUnitsRead(h, 'h', m, 'm');
  }

  lemma MinutesRead(u: int)
    requires 0 <= u < 3600
    ensures ReadFields(Unit(JsRem(u, 3600) / 60, 'm'), ' ') == [Some(u / 60)]
  {
    assert JsRem(u, 3600) == u;
    OneUnitReads(u / 60, 'm');
  }

  lemma ZeroMinutes(u: int)
    requires u == 0
    ensures Unit(JsRem(u, 3600) / 60, 'm') == "0m"
  {
    assert JsRem(u, 3600) / 60 == 0;
    assert IntToString(0) == "0";
  }

  /** Days, hours and minutes read back from the uptime line, as minutes. */
  function UptimeMinutes(fields: seq<Option<int>>): Option<int> {
    if |fields| == 3 && fields[0].Some? && fields[1].Some? && fields[2].Some? then
      Some(fields[0].value * 1440 + fields[1].value * 60 + fields[2].value)
    else if |fields| == 2 && fields[0].Some? && fields[1].Some? then
      Some(fields[0].value * 60 + fields[1].value)
    else if |fields| == 1 && fields[0].Some? then
      fields[0]
    else None
  }

  /** The uptime line denotes the uptime in whole minutes. */
  lemma UptimeReadsBack(uptime: Option<int>)
    requires uptime.Some? ==> uptime.value >= 0
    ensures UptimeMinutes(ReadFields(UptimeString(uptime), ' ')) == Some(UptimeSeconds(uptime) / 60)
  {
    var u := UptimeSeconds(uptime);
    var f := ReadFields(UptimeString(uptime), ' ');
    if u >= 86400 {
      var d, rest := u / 86400, u % 86400;
      var h, rest2 := rest / 3600, rest % 3600;
      var m, sec := rest2 / 60, rest2 % 60;
      assert u == 3600 * (24 * d + h) + rest2;
      HourRemainder(u, 24 * d + h, rest2);
      assert u == 60 * (d * 1440 + h * 60 + m) + sec;
      DaysDenote(f, d, h, m, u / 60);
    } else if u >= 3600 {
      HoursDenote(f, u / 3600, u % 3600 / 60, u / 60);
    } else {
      assert f == [Some(u / 60)];
    }
  }

  lemma HourRemainder(u: int, k: int, r: int)
    requires u == 3600 * k + r && 0 <= r < 3600
    ensures u % 3600 == r
  {
  }

  lemma DaysDenote(f: seq<Option<int>>, d: int, h: int, m: int, v: int)
    requires f == [Some(d), Some(h), Some(m)] && d * 1440 + h * 60 + m == v
    ensures UptimeMinutes(f) == Some(v)
  {
  }

  lemma HoursDenote(f: seq<Option<int>>, h: int, m: int, v: int)
    requires f == [Some(h), Some(m)] && h * 60 + m == v
    ensures UptimeMinutes(f) == Some(v)
  {
  }

  // ---------------------------------------------------------------- storage gauge

  /** A JavaScript number the gauge can hold: a value, or NaN. */
  datatype Percent = NaN | Pct(value: real)

  const BytesPerGB: int := 1073741824

  /** `Math.min((used / maxBytes) * 100, 100)` for a limit read as a whole number, or NaN. */
  function Gauge(maxBytes: Option<int>, used: nat): (r: Percent)
    ensures r.Pct? ==> r.value <= 100.0
    ensures r.NaN? <==> maxBytes.None? || (maxBytes == Some(0) && used == 0)
  {
    match maxBytes
    case None => NaN
    case Some(cap) =>
      if cap != 0 then
        var p := (used as real) / (cap as real) * 100.0;
        Pct(if p <= 100.0 then p else 100.0)
      else if used > 0 then Pct(100.0)
      else NaN
  }

  /**
   * getStoragePercentage: used bytes over `parseInt(maxStorageGB)` GiB, in
   * percent, capped at 100. An unreadable limit gives NaN; a zero limit gives
   * Infinity, capped to 100, or NaN when nothing is used.
   */
  function StoragePercentage(maxStorageGB: string, diskUsage: Option<nat>): (r: Percent)
    ensures r.Pct? ==> r.value <= 100.0
    ensures r.NaN? <==> ParseInt(maxStorageGB, true).None? || (ParseInt(maxStorageGB, true) == Some(0) && diskUsage.GetOr(0) == 0)
  {
    var gb := ParseInt(maxStorageGB, true);
    var cap := if gb.Some? then Some(gb.value * BytesPerGB) else None;
    assert cap == Some(0) <==> gb == Some(0);
    Gauge(cap, diskUsage.GetOr(0))
  }

  /**
   * Against a positive limit of cap bytes the gauge lies in [0, 100]; it reads
   * 100 exactly when the use reaches cap, and is above 90 (75) exactly when
   * the use is above 9/10 (3/4) of cap.
   */
  lemma GaugeAgainstLimit(used: nat, cap: int)
    requires cap > 0
    ensures var r := Gauge(Some(cap), used);
      && r.Pct? && 0.0 <= r.value
      && (r.value == 100.0 <==> used >= cap)
      && (r.value > 90.0 <==> 10 * used > 9 * cap)
      && (r.value > 75.0 <==> 4 * used > 3 * cap)
  {
    var x := (used as real) / (cap as real);
    RatioAbove(used, cap, 1.0);
    RatioAbove(used, cap, 0.9);
    RatioAbove(used, cap, 0.75);
    RatioNonNegative(used, cap);
    assert Gauge(Some(cap), used) == Pct(if x * 100.0 <= 100.0 then x * 100.0 else 100.0);
  }

  lemma RatioNonNegative(used: nat, cap: int)
    requires cap > 0
    ensures (used as real) / (cap as real) >= 0.0
  {
  }

  lemma RatioAbove(used: nat, cap: int, t: real)
    requires cap > 0
    ensures (used as real) / (cap as real) > t <==> used as real > t * (cap as real)
    ensures (used as real) / (cap as real) >= t <==> used as real >= t * (cap as real)
  {
    var c := cap as real;
    var x := (used as real) / c;
    assert x * c == used as real;
    if x > t {
      assert x * c > t * c;
    }
    if x >= t {
      assert x * c >= t * c;
    }
    if used as real > t * c {
      assert x * c > t * c;
    }
    if used as real >= t * c {
      assert x * c >= t * c;
    }
  }

  datatype BarColour = Red | Yellow | Indigo

  /** `p > 90`, which is false for NaN. */
  predicate NearlyFull(p: Percent) {
    p.Pct? && p.value > 90.0
  }

  /** The gauge's bar: red above 90 %, yellow above 75 %, indigo otherwise (NaN included). */
  function Bar(p: Percent): (r: BarColour)
    ensures r == Red <==> NearlyFull(p)
    ensures r == Yellow <==> p.Pct? && 75.0 < p.value <= 90.0
    ensures p.NaN? ==> r == Indigo
  {
    if p.Pct? && p.value > 90.0 then Red
    else if p.Pct? && p.value > 75.0 then Yellow
    else Indigo
  }

  // ---------------------------------------------------------------- form state

  /** A form value: the text inputs hold strings, the switches booleans. */
  datatype SettingValue = Chars(text: string) | Flag(on: bool)

  type Settings = map<string, SettingValue>

  /** The form's initial state. */
  const InitialSettings: Settings := map[
    "maxFileSize" := Chars("500"),
    "maxStorageGB" := Chars("100"),
    "allowedFormats" := Chars("mp4,avi,mov,wmv,flv,webm"),
    "autoGenerateId" := Flag(true),
    "requireAuthentication" := Flag(true),
    "enableRangeRequests" := Flag(true),
    "defaultQuality" := Chars("original"),
    "storageLocation" := Chars("/uploads"),
    "sessionTimeout" := Chars("24")]

  /** handleSettingChange: `{ ...prev, [key]: value }`. */
  function HandleSettingChange(prev: Settings, key: string, value: SettingValue): (r: Settings)
    ensures r.Keys == prev.Keys + {key}
    ensures key in r && r[key] == value
    ensures forall k :: k in prev && k != key ==> r[k] == prev[k]
  {
    prev[key := value]
  }

  /** Of two changes to one key the later wins. */
  lemma LaterChangeWins(s: Settings, key: string, a: SettingValue, b: SettingValue)
    ensures HandleSettingChange(HandleSettingChange(s, key, a), key, b) == HandleSettingChange(s, key, b)
  {
    var l, r := HandleSettingChange(HandleSettingChange(s, key, a), key, b), HandleSettingChange(s, key, b);
    assert l.Keys == r.Keys;
    assert forall k :: k in l ==> l[k] == r[k];
  }

  /** Changes to two different keys can happen in either order. */
  lemma ChangesCommute(s: Settings, k1: string, v1: SettingValue, k2: string, v2: SettingValue)
    requires k1 != k2
    ensures HandleSettingChange(HandleSettingChange(s, k1, v1), k2, v2) == HandleSettingChange(HandleSettingChange(s, k2, v2), k1, v1)
  {
    var l, r := HandleSettingChange(HandleSettingChange(s, k1, v1), k2, v2), HandleSettingChange(HandleSettingChange(s, k2, v2), k1, v1);
    assert l.Keys == r.Keys;
    assert forall k :: k in l ==> l[k] == r[k];
  }

  /** Writing back a setting's current value changes nothing. */
  lemma SameValueKeepsSettings(s: Settings, key: string)
    requires key in s
    ensures HandleSettingChange(s, key, s[key]) == s
  {
    var r := HandleSettingChange(s, key, s[key]);
    assert r.Keys == s.Keys;
    assert forall k :: k in r ==> r[k] == s[k];
  }
}
