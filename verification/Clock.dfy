/** Stored times and their text: the tables hold RFC 3339 text and SQL compares it, while the
    rows of this model hold nanoseconds. Every time has a text, and the order by text that the
    queries use is the order by time that the model uses. */
module Clock {
  import opened Base
  import opened Tables
  import opened Rfc3339
  import opened Items
  import opened Relay

  // ---------------------------------------------------------------- the calendar of an instant

  /** The last year up to `top` that begins no later than day `d`. */
  function YearOf(d: nat, top: nat): (y: nat)
    requires d < DaysBeforeYear(top + 1)
    ensures y <= top && DaysBeforeYear(y) <= d < DaysBeforeYear(y + 1)
  {
    if DaysBeforeYear(top) <= d then top else YearOf(d, top - 1)
  }

  /** The last month up to `top` that begins no later than day `r` of the year. */
  function MonthOf(y: nat, r: nat, top: nat): (m: nat)
    requires 1 <= top && r < DaysBeforeMonth(y, top + 1)
    ensures 1 <= m <= top && DaysBeforeMonth(y, m) <= r < DaysBeforeMonth(y, m + 1)
  {
    if DaysBeforeMonth(y, top) <= r then top else MonthOf(y, r, top - 1)
  }

  /** Day `d` comes before the end of year `top`, one of four digits. */
  predicate EndsBy(d: nat, top: nat) { top <= 9999 && d < DaysBeforeYear(top + 1) }

  /** The instant lies in a year of four digits. */
  ghost predicate Printable(n: nat) { exists top: nat :: EndsBy(n / 1_000_000_000 / 60 / 60 / 24, top) }

  lemma TimeOfDay(n: nat)
    ensures var s := n / 1_000_000_000;
            n == (((s / 60 / 60 / 24 * 24 + s / 60 / 60 % 24) * 60 + s / 60 % 60) * 60 + s % 60) * 1_000_000_000
                 + n % 1_000_000_000
  {
    var s := n / 1_000_000_000;
    var i := s / 60;
    var h := i / 60;
    assert h == h / 24 * 24 + h % 24 && i == h * 60 + i % 60 && s == i * 60 + s % 60;
  }

  lemma DateOfDay(d: nat, top: nat) returns (y: nat, m: nat, day: nat)
    requires EndsBy(d, top)
    ensures y <= 9999 && 1 <= m <= 12 && 1 <= day <= DaysIn(y, m)
    ensures d == DaysBeforeYear(y) + DaysBeforeMonth(y, m) + day - 1
  {
    y := YearOf(d, top);
    var r := d - DaysBeforeYear(y);
    m := MonthOf(y, r, 12);
    day := r - DaysBeforeMonth(y, m) + 1;
  }

  /** Every printable instant is that of a calendar time. */
  lemma CalendarOf(n: nat) returns (t: Utc)
    requires Printable(n)
    ensures Valid(t) && Instant(t) == n
  {
    var s := n / 1_000_000_000;
    var top: nat :| EndsBy(s / 60 / 60 / 24, top);
    var y, m, day := DateOfDay(s / 60 / 60 / 24, top);
    t := Utc(y, m, day, s / 60 / 60 % 24, s / 60 % 60, s % 60, n % 1_000_000_000);
    TimeOfDay(n);
  }

  // ---------------------------------------------------------------- the text of a stored time

  /** `x` is the text of the instant. */
  ghost predicate Shows(x: string, n: nat) { exists t :: Valid(t) && Instant(t) == n && Rfc3339.Text(t) == x }

  /** Every printable instant has exactly one text. */
  lemma OneText(n: nat) returns (x: string)
    requires Printable(n)
    ensures Shows(x, n) && forall y :: Shows(y, n) ==> y == x
  {
    var t := CalendarOf(n);
    x := Rfc3339.Text(t);
    forall y | Shows(y, n) ensures y == x {
      var u :| Valid(u) && Instant(u) == n && Rfc3339.Text(u) == y;
      TextOrderIsTimeOrder(t, u);
    }
  }

  lemma TextOrder(x: string, m: nat, y: string, n: nat)
    requires Shows(x, m) && Shows(y, n)
    ensures StrLess(x, y) <==> m < n
    ensures x == y <==> m == n
  {
    var t :| Valid(t) && Instant(t) == m && Rfc3339.Text(t) == x;
    var u :| Valid(u) && Instant(u) == n && Rfc3339.Text(u) == y;
    TextOrderIsTimeOrder(t, u);
  }

  /** The texts of these stored times, which count from instant `epoch`. */
  ghost predicate Column(texts: seq<string>, times: seq<nat>, epoch: nat)
  {
    |texts| == |times| && forall i :: 0 <= i < |times| ==> Shows(texts[i], epoch + times[i])
  }

  /** `ORDER BY` the text column. */
  predicate TextAscending(texts: seq<string>)
  {
    forall i, j :: 0 <= i < j < |texts| ==> !StrLess(texts[j], texts[i])
  }

  predicate Ascending(times: seq<nat>) { forall i, j :: 0 <= i < j < |times| ==> times[i] <= times[j] }

  lemma AscendingByText(texts: seq<string>, times: seq<nat>, epoch: nat)
    requires Column(texts, times, epoch)
    ensures TextAscending(texts) <==> Ascending(times)
  {
    forall i, j | 0 <= i < j < |times| ensures !StrLess(texts[j], texts[i]) <==> times[i] <= times[j] {
      TextOrder(texts[j], epoch + times[j], texts[i], epoch + times[i]);
    }
  }

  // ---------------------------------------------------------------- the queries

  function Arrivals(rows: seq<Message>): (r: seq<nat>)
    ensures |r| == |rows| && forall i :: 0 <= i < |rows| ==> r[i] == rows[i].at
  {
    seq(|rows|, i requires 0 <= i < |rows| => rows[i].at)
  }

  /** An inbox answer in order of its text column is in order of arrival. */
  lemma ReadingByText(rows: seq<Message>, texts: seq<string>, epoch: nat)
    requires Column(texts, Arrivals(rows), epoch)
    ensures TextAscending(texts) <==> InOrder(rows)
  {
    AscendingByText(texts, Arrivals(rows), epoch);
    assert Ascending(Arrivals(rows)) <==> InOrder(rows) by {
      if Ascending(Arrivals(rows)) {
        forall i, j | 0 <= i < j < |rows| ensures rows[i].at <= rows[j].at {
          assert Arrivals(rows)[i] <= Arrivals(rows)[j];
        }
      }
    }
  }

  function ItemTimes(items: seq<WorkItem>): (r: seq<nat>)
    ensures |r| == |items| && forall i :: 0 <= i < |items| ==> r[i] == items[i].createdAt
  {
    seq(|items|, i requires 0 <= i < |items| => items[i].createdAt)
  }

  /** The row that `ORDER BY created_at DESC LIMIT 1` may return, by text. */
  predicate NewestByText(items: seq<WorkItem>, texts: seq<string>, task: string, session: string, i: nat)
    requires |texts| == |items|
  {
    && i < |items| && BlockedOn(items[i], task, session)
    && forall j :: 0 <= j < |items| && BlockedOn(items[j], task, session) ==> !StrLess(texts[i], texts[j])
  }

  lemma NewestBlockedByText(items: seq<WorkItem>, texts: seq<string>, epoch: nat, task: string, session: string, i: nat)
    requires Column(texts, ItemTimes(items), epoch)
    ensures NewestByText(items, texts, task, session, i) <==> IsNewestBlocked(items, task, session, i)
  {
    if i < |items| {
      forall j | 0 <= j < |items| ensures !StrLess(texts[i], texts[j]) <==> items[j].createdAt <= items[i].createdAt {
        TextOrder(texts[i], epoch + ItemTimes(items)[i], texts[j], epoch + ItemTimes(items)[j]);
      }
    }
  }

  function LeaseTimes(leases: seq<Lease>): (r: seq<nat>)
    ensures |r| == |leases| && forall i :: 0 <= i < |leases| ==> r[i] == leases[i].createdAt
  {
    seq(|leases|, i requires 0 <= i < |leases| => leases[i].createdAt)
  }

  predicate NewestLeaseByText(leases: seq<Lease>, texts: seq<string>, item: string, i: nat)
    requires |texts| == |leases|
  {
    && i < |leases| && leases[i].item == item
    && forall j :: 0 <= j < |leases| && leases[j].item == item ==> !StrLess(texts[i], texts[j])
  }

  lemma LatestLeaseByText(leases: seq<Lease>, texts: seq<string>, epoch: nat, item: string, i: nat)
    requires Column(texts, LeaseTimes(leases), epoch)
    ensures NewestLeaseByText(leases, texts, item, i) <==> NewestLease(leases, item, i)
  {
    if i < |leases| {
      forall j | 0 <= j < |leases| ensures !StrLess(texts[i], texts[j])
         <==> leases[j].createdAt <= leases[i].createdAt {
        TextOrder(texts[i], epoch + LeaseTimes(leases)[i], texts[j], epoch + LeaseTimes(leases)[j]);
      }
    }
  }
}
