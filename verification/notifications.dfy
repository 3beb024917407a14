/** The list logic of `src/screens/main/NotificationsScreen.tsx`: how old a
    notification is said to be, marking one or all notifications read, the
    unread count and the header it drives. Times are whole milliseconds;
    the current time is a parameter. */
module Notifications {
  import opened Wrappers
  import JsString

  datatype Kind = Match | Message | Like | Nearby | System

  datatype Notification = Notification(
    id: string,
    kind: Kind,
    title: string,
    message: string,
    timestamp: int,
    read: bool,
    avatarUri: Option<string>,
    userName: Option<string>)

  /** The age label: a relative text, or the locale's rendering of the
      date, which is not modelled beyond the timestamp it renders. */
  datatype Age = Relative(text: string) | CalendarDate(timestamp: int)

  const JustNow := "Just now"

  const MinuteMs := 60000
  const HourMs := 3600000
  const DayMs := 86400000
  const WeekMs := 604800000

  /** `formatTimestamp`. Each unit is the floor of the previous one divided
      down, which is the floor of the elapsed milliseconds divided by the
      unit's length; a timestamp in the future counts as just now. */
  function FormatTimestamp(now: int, timestamp: int): (r: Age)
    ensures var diff := now - timestamp;
      && (diff < MinuteMs ==> r == Relative(JustNow))
      && (MinuteMs <= diff < HourMs ==> r == Relative(JsString.NatToString(diff / MinuteMs) + "m ago"))
      && (HourMs <= diff < DayMs ==> r == Relative(JsString.NatToString(diff / HourMs) + "h ago"))
      && (DayMs <= diff < WeekMs ==> r == Relative(JsString.NatToString(diff / DayMs) + "d ago"))
      && (WeekMs <= diff ==> r == CalendarDate(timestamp))
  {
    var diff := now - timestamp;
    var seconds := diff / 1000;
    var minutes := seconds / 60;
    var hours := minutes / 60;
    var days := hours / 24;
    FloorsCompose(diff);
    if seconds < 60 then Relative(JustNow)
    else if minutes < 60 then Relative(JsString.NatToString(minutes) + "m ago")
    else if hours < 24 then Relative(JsString.NatToString(hours) + "h ago")
    else if days < 7 then Relative(JsString.NatToString(days) + "d ago")
    else CalendarDate(timestamp)
  }

  /** Flooring in steps is flooring once by the product of the steps. */
  lemma FloorsCompose(diff: int)
    ensures diff / 1000 / 60 == diff / MinuteMs
    ensures diff / 1000 / 60 / 60 == diff / HourMs
    ensures diff / 1000 / 60 / 60 / 24 == diff / DayMs
  {
    FloorOfFloor(diff, 1000, 60);
    FloorOfFloor(diff, 60000, 60);
    FloorOfFloor(diff, 3600000, 24);
  }

  lemma FloorOfFloor(x: int, a: int, b: int)
    requires a > 0 && b > 0
    ensures x / a / b == x / (a * b)
  {
    var q := x / a;
    var r := x % a;
    var q2 := q / b;
    var r2 := q % b;
    assert a * r2 <= a * (b - 1) by {
      MultiplyMonotone(a, r2, b - 1);
    }
    assert x == (a * b) * q2 + (a * r2 + r) by {
      assert x == a * q + r;
      assert q == b * q2 + r2;
      assert a * q == a * (b * q2) + a * r2;
    }
    FloorUnique(x, a * b, q2, a * r2 + r);
  }

  lemma MultiplyMonotone(a: int, m: int, n: int)
    requires a > 0 && m <= n
    ensures a * m <= a * n
  {
  }

  lemma FloorUnique(x: int, d: int, q: int, r: int)
    requires d > 0 && x == d * q + r && 0 <= r < d
    ensures x / d == q
  {
    var q0 := x / d;
    var r0 := x % d;
    assert d * (q - q0) == r0 - r;
    if q > q0 {
      assert d * (q - q0) >= d * 1 by { MultiplyMonotone(d, 1, q - q0); }
    } else if q < q0 {
      assert d * (q0 - q) >= d * 1 by { MultiplyMonotone(d, 1, q0 - q); }
    }
  }

  /** The four thresholds as the screen shows them: one minute is the first
      "1m ago", and the last minute of a week is still in days. */
  lemma AgeBoundaries(now: int)
    ensures FormatTimestamp(now, now - 59999) == Relative(JustNow)
    ensures FormatTimestamp(now, now - 60000) == Relative("1m ago")
    ensures FormatTimestamp(now, now - 3600000) == Relative("1h ago")
    ensures FormatTimestamp(now, now - 604799999) == Relative("6d ago")
    ensures FormatTimestamp(now, now - 604800000) == CalendarDate(now - 604800000)
  {
    assert JsString.NatToString(1) == "1";
    assert JsString.NatToString(6) == "6";
  }

  /** A timestamp in the future reads as just now. */
  lemma FutureIsJustNow(now: int, timestamp: int)
    requires timestamp > now
    ensures FormatTimestamp(now, timestamp) == Relative(JustNow)
  {
  }

  /** How coarse a label is: just now, minutes, hours, days, a date. */
  function Coarseness(age: Age): nat
  {
    match age
    case CalendarDate(_) => 4
    case Relative(text) =>
      if text == JustNow then 0
      else if |text| >= 5 && text[|text| - 5] == 'm' then 1
      else if |text| >= 5 && text[|text| - 5] == 'h' then 2
      else 3
  }

  lemma SuffixOf(n: nat, unit: string)
    requires |unit| == 5
    ensures var t := JsString.NatToString(n) + unit; |t| >= 6 && t[|t| - 5] == unit[0] && t != JustNow
  {
    var t := JsString.NatToString(n) + unit;
    assert t[|t| - 5] == unit[0];
    assert JsString.IsDigit(t[0]);
  }

  lemma CoarsenessOf(now: int, timestamp: int)
    ensures var diff := now - timestamp;
      Coarseness(FormatTimestamp(now, timestamp)) ==
        if diff < MinuteMs then 0 else if diff < HourMs then 1 else if diff < DayMs then 2
        else if diff < WeekMs then 3 else 4
  {
    var diff := now - timestamp;
    if MinuteMs <= diff < HourMs {
      SuffixOf(diff / MinuteMs, "m ago");
    } else if HourMs <= diff < DayMs {
      SuffixOf(diff / HourMs, "h ago");
    } else if DayMs <= diff < WeekMs {
      SuffixOf(diff / DayMs, "d ago");
    }
  }

  /** An older notification never gets a finer label than a newer one. */
  lemma OlderIsCoarser(now: int, newer: int, older: int)
    requires older <= newer
    ensures Coarseness(FormatTimestamp(now, newer)) <= Coarseness(FormatTimestamp(now, older))
  {
    CoarsenessOf(now, newer);
    CoarsenessOf(now, older);
  }

  /** `handleNotificationPress`: every entry with the pressed id is marked
      read; the list keeps its order and length. */
  function MarkRead(list: seq<Notification>, id: string): (r: seq<Notification>)
    ensures |r| == |list|
    ensures forall i | 0 <= i < |list| :: r[i].read == (list[i].read || list[i].id == id)
    ensures forall i | 0 <= i < |list| :: r[i] == list[i].(read := r[i].read)
  {
    seq(|list|, i requires 0 <= i < |list| => if list[i].id == id then list[i].(read := true) else list[i])
  }

  /** `handleMarkAllRead`: every entry is marked read, nothing else moves. */
  function MarkAllRead(list: seq<Notification>): (r: seq<Notification>)
    ensures |r| == |list|
    ensures forall i | 0 <= i < |list| :: r[i] == list[i].(read := true)
  {
    seq(|list|, i requires 0 <= i < |list| => list[i].(read := true))
  }

  /** `notifications.filter(n => !n.read).length`. */
  function UnreadCount(list: seq<Notification>): (n: nat)
    ensures n <= |list|
    decreases |list|
  {
    if list == [] then 0 else (if list[0].read then 0 else 1) + UnreadCount(list[1..])
  }

  /** The count is zero exactly when every entry is read. */
  lemma {:induction false} UnreadCountZero(list: seq<Notification>)
    ensures UnreadCount(list) == 0 <==> forall i | 0 <= i < |list| :: list[i].read
    decreases |list|
  {
    if list != [] {
      UnreadCountZero(list[1..]);
      assert forall i | 0 <= i < |list| - 1 :: list[1..][i] == list[i + 1];
      if forall i | 0 <= i < |list| - 1 :: list[1..][i].read {
        assert forall i | 1 <= i < |list| :: list[i] == list[1..][i - 1];
      }
    }
  }

  /** The count is |list| exactly when no entry is read. */
  lemma {:induction false} UnreadCountFull(list: seq<Notification>)
    ensures UnreadCount(list) == |list| <==> forall i | 0 <= i < |list| :: !list[i].read
    decreases |list|
  {
    if list != [] {
      UnreadCountFull(list[1..]);
      assert forall i | 0 <= i < |list| - 1 :: list[1..][i] == list[i + 1];
      if forall i | 0 <= i < |list| - 1 :: !list[1..][i].read {
        assert forall i | 1 <= i < |list| :: list[i] == list[1..][i - 1];
      }
    }
  }

  /** After marking all read the count is zero, and marking again changes
      nothing. */
  lemma MarkAllReadClears(list: seq<Notification>)
    ensures UnreadCount(MarkAllRead(list)) == 0
    ensures MarkAllRead(MarkAllRead(list)) == MarkAllRead(list)
  {
    UnreadCountZero(MarkAllRead(list));
  }

  /** Pressing a notification never raises the count, and lowers it unless
      every entry with that id was already read. */
  lemma {:induction false} MarkReadLowersCount(list: seq<Notification>, id: string)
    ensures UnreadCount(MarkRead(list, id)) <= UnreadCount(list)
    ensures UnreadCount(MarkRead(list, id)) == UnreadCount(list) <==>
      forall i | 0 <= i < |list| && list[i].id == id :: list[i].read
    decreases |list|
  {
    if list != [] {
      var r := MarkRead(list, id);
      assert r[1..] == MarkRead(list[1..], id);
      MarkReadLowersCount(list[1..], id);
      assert forall i | 0 <= i < |list| - 1 :: list[1..][i] == list[i + 1];
      if forall i | 0 <= i < |list| - 1 && list[1..][i].id == id :: list[1..][i].read {
        assert forall i | 1 <= i < |list| :: list[i] == list[1..][i - 1];
      }
    }
  }

  /** Pressing the same notification twice is pressing it once, and after
      marking all read a press changes nothing. */
  lemma MarkReadIdempotent(list: seq<Notification>, id: string)
    ensures MarkRead(MarkRead(list, id), id) == MarkRead(list, id)
    ensures MarkRead(MarkAllRead(list), id) == MarkAllRead(list)
  {
  }

  const BadgeNoun := " unread notification"

  /** The badge text: the count, the noun, and an 's' unless the count is
      exactly one. */
  function BadgeText(count: nat): (t: string)
    ensures |t| > |BadgeNoun|
    ensures t[|t| - 1] == 's' <==> count != 1
    ensures t[..|t| - (if count != 1 then 1 else 0)] == JsString.NatToString(count) + BadgeNoun
  {
    JsString.NatToString(count) + BadgeNoun + (if count != 1 then "s" else "")
  }

  /** What the header shows: the mark-all control and the badge, both only
      while something is unread. */
  datatype Header = Header(markAllShown: bool, badge: Option<string>)

  function HeaderOf(list: seq<Notification>): (h: Header)
    ensures h.markAllShown <==> exists i | 0 <= i < |list| :: !list[i].read
    ensures h.badge.Some? <==> h.markAllShown
    ensures h.badge.Some? ==> h.badge.value == BadgeText(UnreadCount(list))
  {
    var count := UnreadCount(list);
    UnreadCountZero(list);
    Header(count > 0, if count > 0 then Some(BadgeText(count)) else None)
  }

  /** After marking all read the header shows neither control nor badge. */
  lemma MarkAllReadHidesHeader(list: seq<Notification>)
    ensures HeaderOf(MarkAllRead(list)) == Header(false, None)
  {
    MarkAllReadClears(list);
  }
}
