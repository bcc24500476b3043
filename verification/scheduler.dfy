/** The daily reminder e-mail's schedule: the reminder time a user picked in the settings,
    turned into a cron expression. */
module EmailScheduler {
  import opened Types

  /** "minute hour day-of-month month day-of-week": every day at 08:00. */
  const DEFAULT_CRON: string := "0 8 * * *"

  /** The lookup table of the scheduler, in its own order. */
  const MAPPING: seq<(string, string)> := [("8:00 AM", "0 8 * * *"), ("12:00 PM", "0 12 * * *"), ("7:00 PM", "0 19 * * *")]

  /** The reminder times the settings record accepts. */
  const REMINDER_TIMES: seq<string> := ["8:00 AM", "2:00 PM", "7:00 PM"]

  /** The value of the first pair whose key is `key`, if any. */
  function Lookup(table: seq<(string, string)>, key: string): (r: Option<string>)
    ensures r.None? <==> forall i :: 0 <= i < |table| ==> table[i].0 != key
    ensures r.Some? ==> exists i :: 0 <= i < |table| && table[i].0 == key && table[i].1 == r.value
                                    && forall j :: 0 <= j < i ==> table[j].0 != key
  {
    if |table| == 0 then None
    else if table[0].0 == key then Some(table[0].1)
    else
      var r := Lookup(table[1..], key);
      assert forall i :: 1 <= i < |table| ==> table[i] == table[1..][i - 1];
      r
  }

  /** The cron expression for a reminder time: the table's entry, or the default when the time
      is missing from the table (or maps to an empty expression, which reads as false). */
  function CronTimeWith(table: seq<(string, string)>, time: string): (r: string)
    ensures Lookup(table, time).None? ==> r == DEFAULT_CRON
    ensures r == DEFAULT_CRON || exists i :: 0 <= i < |table| && table[i].0 == time && table[i].1 == r
    ensures FollowsTheClock(table) && Lookup(table, time).Some? ==>
              HourOf(time).Some? && r == DailyAt(HourOf(time).value)
  {
    var v := Lookup(table, time);
    if v.Some? && v.value != "" then v.value else DEFAULT_CRON
  }

  /** One or two decimal digits, no leading zero. */
  function NumberText(n: nat): (r: string)
    requires n < 100
    ensures 1 <= |r| <= 2
    ensures forall i :: 0 <= i < |r| ==> '0' <= r[i] <= '9'
  {
    if n < 10 then [('0' as int + n) as char]
    else [('0' as int + n / 10) as char, ('0' as int + n % 10) as char]
  }

  /** The number one or two decimal digits spell, refusing a leading zero. */
  function ParseNumber(s: string): (r: Option<nat>)
    ensures r.Some? ==> r.value < 100 && NumberText(r.value) == s
  {
    if |s| == 1 && '0' <= s[0] <= '9' then Some(s[0] as int - '0' as int)
    else if |s| == 2 && '1' <= s[0] <= '9' && '0' <= s[1] <= '9' then
      Some(10 * (s[0] as int - '0' as int) + (s[1] as int - '0' as int))
    else None
  }

  /** A whole hour on the twelve-hour clock, as the settings page writes it ("7:00 PM"). */
  function ClockText(h: nat): (r: string)
    requires h < 24
  {
    var h12 := if h % 12 == 0 then 12 else h % 12;
    NumberText(h12) + ":00 " + (if h < 12 then "AM" else "PM")
  }

  /** The hour of the day (0 to 23) a twelve-hour clock reading names: 12 AM is midnight,
      12 PM is noon; None for anything that is not a whole hour. */
  function HourOf(t: string): (r: Option<nat>)
    ensures r.Some? ==> r.value < 24
  {
    if |t| < 7 || t[|t| - 6..|t| - 3] != ":00" || t[|t| - 3] != ' ' then None
    else
      var suffix := t[|t| - 2..];
      var n := ParseNumber(t[..|t| - 6]);
      if n.None? || n.value < 1 || 12 < n.value || (suffix != "AM" && suffix != "PM") then None
      else Some(n.value % 12 + (if suffix == "PM" then 12 else 0))
  }

  /** Every hour of the day is written one way, and reading it back gives the hour. */
  lemma ClockRoundTrip(h: nat)
    requires h < 24
    ensures HourOf(ClockText(h)) == Some(h)
  {
    var h12 := if h % 12 == 0 then 12 else h % 12;
    var t := ClockText(h);
    var d := NumberText(h12);
    assert t[..|t| - 6] == d;
    assert t[|t| - 6..|t| - 3] == ":00";
    assert t[|t| - 2..] == (if h < 12 then "AM" else "PM");
    assert ParseNumber(d) == Some(h12) by {
      if h12 >= 10 {
        assert d[0] == '1';
      }
    }
  }

  /** Conversely, a reading that names an hour is that hour's one spelling. */
  lemma ClockTextIsCanonical(t: string)
    requires HourOf(t).Some?
    ensures ClockText(HourOf(t).value) == t
  {
    var n := ParseNumber(t[..|t| - 6]).value;
    var h := HourOf(t).value;
    var h12 := if h % 12 == 0 then 12 else h % 12;
    assert h12 == n;
    assert t == t[..|t| - 6] + t[|t| - 6..|t| - 3] + [t[|t| - 3]] + t[|t| - 2..];
  }

  /** The cron expression that fires every day at hour `h`. */
  function DailyAt(h: nat): (r: string)
    requires h < 24
  {
    "0 " + NumberText(h) + " * * *"
  }

  /** The cron expression of the scheduler as written. */
  function CronTime(time: string): (r: string)
    ensures r in [DEFAULT_CRON, "0 12 * * *", "0 19 * * *"]
    ensures time != "12:00 PM" && time != "7:00 PM" ==> r == DEFAULT_CRON
    ensures time in ["8:00 AM", "12:00 PM", "7:00 PM"] ==> HourOf(time).Some? && r == DailyAt(HourOf(time).value)
  {
    MappedTimesFollowTheClock();
    MappingLookup(time);
    CronTimeWith(MAPPING, time)
  }

  /** The original table, entry by entry. */
  lemma MappingLookup(time: string)
    ensures Lookup(MAPPING, time)
            == if time == "8:00 AM" then Some("0 8 * * *")
               else if time == "12:00 PM" then Some("0 12 * * *")
               else if time == "7:00 PM" then Some("0 19 * * *")
               else None
  {
    assert MAPPING[1..][1..][1..] == [];
    assert "7:00 PM" != "8:00 AM" by {
      assert "7:00 PM"[0] != "8:00 AM"[0];
    }
  }

  /** Each pair of a table sends a clock reading to the daily expression at that hour. */
  ghost predicate FollowsTheClock(table: seq<(string, string)>)
  {
    forall i :: 0 <= i < |table| ==> HourOf(table[i].0).Some? && table[i].1 == DailyAt(HourOf(table[i].0).value)
  }

  /** Every pair of the original table fires at the hour its reading names. */
  lemma MappedTimesFollowTheClock()
    ensures FollowsTheClock(MAPPING)
  {
    KnownReadings();
  }

  /** The three hours of the original table, and the afternoon one, read off the clock. */
  lemma KnownReadings()
    ensures HourOf("8:00 AM") == Some(8) && DailyAt(8) == "0 8 * * *"
    ensures HourOf("12:00 PM") == Some(12) && DailyAt(12) == "0 12 * * *"
    ensures HourOf("7:00 PM") == Some(19) && DailyAt(19) == "0 19 * * *"
    ensures HourOf("2:00 PM") == Some(14) && DailyAt(14) == "0 14 * * *"
  {
    EightAm();
    NoonPm();
    SevenPm();
    TwoPm();
  }

  lemma EightAm()
    ensures HourOf("8:00 AM") == Some(8) && DailyAt(8) == "0 8 * * *"
  {
    ClockRoundTrip(8);
    assert ClockText(8) == "8:00 AM";
  }

  lemma NoonPm()
    ensures HourOf("12:00 PM") == Some(12) && DailyAt(12) == "0 12 * * *"
  {
    ClockRoundTrip(12);
    assert ClockText(12) == "12:00 PM";
  }

  lemma SevenPm()
    ensures HourOf("7:00 PM") == Some(19) && DailyAt(19) == "0 19 * * *"
  {
    ClockRoundTrip(19);
    assert ClockText(19) == "7:00 PM";
  }

  lemma TwoPm()
    ensures HourOf("2:00 PM") == Some(14) && DailyAt(14) == "0 14 * * *"
  {
    ClockRoundTrip(14);
    assert ClockText(14) == "2:00 PM";
  }

  /** The scheduler as written sends the "2:00 PM" setting, which the settings record offers,
      to the 08:00 default: the afternoon reminder arrives in the morning. */
  lemma TwoPmFallsToMorning()
    ensures "2:00 PM" in REMINDER_TIMES
    ensures HourOf("2:00 PM") == Some(14)
    ensures CronTime("2:00 PM") == DEFAULT_CRON != DailyAt(14)
  {
    KnownReadings();
  }

  /** The table with the settings record's afternoon time added. */
  const CORRECTED_MAPPING: seq<(string, string)> := MAPPING + [("2:00 PM", "0 14 * * *")]

  /** The scheduler with every time the settings record offers in its table: each offered time,
      and each time the original table knew, fires at the hour it names; anything else still
      falls back to 08:00. */
  function CorrectedCronTime(time: string): (r: string)
    ensures time in REMINDER_TIMES || time in ["8:00 AM", "12:00 PM", "7:00 PM"] ==>
              HourOf(time).Some? && r == DailyAt(HourOf(time).value)
    ensures time !in REMINDER_TIMES && time !in ["8:00 AM", "12:00 PM", "7:00 PM"] ==> r == DEFAULT_CRON
  {
    CorrectedTimesFollowTheClock();
    CorrectedTableKeys(time);
    CronTimeWith(CORRECTED_MAPPING, time)
  }

  lemma CorrectedTableKeys(time: string)
    ensures time in REMINDER_TIMES || time in ["8:00 AM", "12:00 PM", "7:00 PM"] ==> Lookup(CORRECTED_MAPPING, time).Some?
  {
    var keys := seq(|CORRECTED_MAPPING|, i requires 0 <= i < |CORRECTED_MAPPING| => CORRECTED_MAPPING[i].0);
    assert keys == ["8:00 AM", "12:00 PM", "7:00 PM", "2:00 PM"];
    if time in keys {
      var i :| 0 <= i < |keys| && keys[i] == time;
      assert CORRECTED_MAPPING[i].0 == time;
    }
  }

  /** Every pair of the corrected table fires at the hour its reading names. */
  lemma CorrectedTimesFollowTheClock()
    ensures FollowsTheClock(CORRECTED_MAPPING)
  {
    var table := CORRECTED_MAPPING;
    MappedTimesFollowTheClock();
    forall i | 0 <= i < |table| ensures HourOf(table[i].0).Some? && table[i].1 == DailyAt(HourOf(table[i].0).value) {
      if i < |MAPPING| {
        assert table[i] == MAPPING[i];
      } else {
        KnownReadings();
      }
    }
  }
}
