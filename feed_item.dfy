/** How long ago a feed item was published, in words. */
module FeedItems {
  import opened Wrappers

  /** The decimal digits of `n`, as `{n}` formats it. */
  function NatToString(n: nat): (r: string)
    ensures r != []
    ensures forall i :: 0 <= i < |r| ==> '0' <= r[i] <= '9'
    ensures |r| > 1 ==> r[0] != '0'
  {
    if n < 10 then [Digit(n)] else NatToString(n / 10) + [Digit(n % 10)]
  }

  function Digit(d: nat): char
    requires d < 10
  {
    ('0' as int + d) as char
  }

  /** The number a string of decimal digits spells. */
  function ParseNat(s: string): nat
    requires forall i :: 0 <= i < |s| ==> '0' <= s[i] <= '9'
  {
    if s == [] then 0
    else ParseNat(s[..|s| - 1]) * 10 + (s[|s| - 1] as int - '0' as int)
  }

  /** Formatting a number and reading it back gives the number. */
  lemma {:induction false} ParseFormatted(n: nat)
    ensures ParseNat(NatToString(n)) == n
  {
    var s := NatToString(n);
    if n >= 10 {
      ParseFormatted(n / 10);
      assert s[..|s| - 1] == NatToString(n / 10);
    }
  }

  /** Seconds in a minute, an hour and a day. */
  const Minute := 60
  const Hour := 3600
  const Day := 86400

  /** A FeedItem's publication time, in seconds, when it has one. */
  datatype FeedItem = FeedItem(published: Option<int>)

  /** The difference fits the `int` the source casts it to. */
  predicate FitsInt32(x: int) {
    -0x8000_0000 <= x < 0x8000_0000
  }

  /** GetTimeAgo: how long before `fromDate` the item was published, with
      both times in whole seconds. */
  function GetTimeAgo(item: FeedItem, fromDate: int): (r: string)
    requires item.published.Some? ==> FitsInt32(fromDate - item.published.value)
    ensures item.published.None? ==> r == ""
    ensures item.published.Some? && fromDate - item.published.value >= 0 ==> r != []
  {
    if item.published.None? then ""
    else
      var secDiff := fromDate - item.published.value;
      var dayDiff := if secDiff >= 0 then secDiff / Day else -((-secDiff) / Day);
      if secDiff < 0 then "from the future"
      else if dayDiff == 0 && secDiff < Minute then "just now"
      else if dayDiff == 0 && secDiff < 2 * Minute then "1 minute ago"
      else if dayDiff == 0 && secDiff < Hour then NatToString(secDiff / Minute) + " minutes ago"
      else if dayDiff == 0 && secDiff < 2 * Hour then "1 hour ago"
      else if dayDiff == 0 && secDiff < Day then NatToString(secDiff / Hour) + " hours ago"
      else if dayDiff == 1 then "yesterday"
      else NatToString(dayDiff) + " days ago"
  }

  /** The phrase for each span of time, with the count it reports being the
      whole number of minutes, hours or days elapsed. */
  lemma TimeAgoBuckets(published: int, fromDate: int)
    requires FitsInt32(fromDate - published)
    ensures var d := fromDate - published;
            var r := GetTimeAgo(FeedItem(Some(published)), fromDate);
            && (d < 0 ==> r == "from the future")
            && (0 <= d < Minute ==> r == "just now")
            && (Minute <= d < 2 * Minute ==> r == "1 minute ago")
            && (2 * Minute <= d < Hour ==>
                  exists m :: 2 <= m < 60 && m * Minute <= d < (m + 1) * Minute && r == NatToString(m) + " minutes ago")
            && (Hour <= d < 2 * Hour ==> r == "1 hour ago")
            && (2 * Hour <= d < Day ==>
                  exists h :: 2 <= h < 24 && h * Hour <= d < (h + 1) * Hour && r == NatToString(h) + " hours ago")
            && (Day <= d < 2 * Day ==> r == "yesterday")
            && (2 * Day <= d ==>
                  exists n :: 2 <= n && n * Day <= d < (n + 1) * Day && r == NatToString(n) + " days ago")
  {
    var d := fromDate - published;
    if 2 * Minute <= d < Hour {
      var m := d / Minute;
      assert m * Minute <= d < (m + 1) * Minute;
    } else if 2 * Hour <= d < Day {
      var h := d / Hour;
      assert h * Hour <= d < (h + 1) * Hour;
    } else if 2 * Day <= d {
      var n := d / Day;
      assert n * Day <= d < (n + 1) * Day;
    }
  }
}
