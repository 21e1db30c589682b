/** The last-visit list (src/pages/ClientsLastVisit.jsx): every client with
    the date of the last visit and the days since, clients never seen
    first, then the longest absences first; the search box; and the badge
    colour of the days column. */
module ClientsLastVisitPage {
  import opened Base
  import opened Schema
  import opened Helpers
  import DashboardPage

  /** A row of the list: the client, the date of the last visit as shown,
      the days since it (None for a client never seen) and their caption. */
  datatype VisitRow = VisitRow(client: Client, lastVisitLabel: string, daysSince: Option<int>, daysLabel: string)

  /** The days column: "Hoje", "1 dia", or "N dias". */
  function DaysLabel(days: int): string
  {
    if days == 0 then "Hoje" else if days == 1 then "1 dia" else IntToString(days) + " dias"
  }

  /** Different day counts read differently. */
  lemma DaysLabelDistinct(d: int, e: int)
    requires d != e
    ensures DaysLabel(d) != DaysLabel(e)
  {
    if d != 0 && d != 1 && e != 0 && e != 1 {
      var x, y := IntToString(d), IntToString(e);
      var l, l' := x + " dias", y + " dias";
      assert x == l[..|l| - 5] && y == l'[..|l'| - 5];
      IntToStringInjective(d, e);
    } else if d == 1 || e == 1 {
      var k := if d == 1 then e else d;
      if k != 0 {
        var l := IntToString(k) + " dias";
        assert l[|l| - 1] == 's';
      }
    }
  }

  /** The row built for one client, with "now" passed in. */
  function RowOf(now: Time): Client -> VisitRow
  {
    (c: Client) =>
      if c.lastVisitAt.None? then VisitRow(c, "Nunca", None, "Nunca")
      else
        var days := DaysBetween(c.lastVisitAt.value, now);
        VisitRow(c, FormatDateBR(Valid(c.lastVisitAt.value)), Some(days), DaysLabel(days))
  }

  function VisitRank(r: VisitRow): Rank
  {
    DaysSinceRank(r.daysSince)
  }

  /** buildClientsLastVisitList. */
  function BuildList(clients: seq<Client>, now: Time): seq<VisitRow>
  {
    SortDesc(Map(clients, RowOf(now)), VisitRank)
  }

  /** The list has one row per client (a permutation of the clients' rows)
      and every row is the row of its client. */
  lemma BuildListMembers(clients: seq<Client>, now: Time)
    ensures var r := BuildList(clients, now);
      && multiset(r) == multiset(Map(clients, RowOf(now)))
      && |r| == |clients|
      && (forall c :: c in clients ==> RowOf(now)(c) in r)
      && (forall row :: row in r ==> row.client in clients && row == RowOf(now)(row.client))
  {
    var rows := Map(clients, RowOf(now));
    var r := BuildList(clients, now);
    forall row | row in r ensures row.client in clients && row == RowOf(now)(row.client) {
      assert row in multiset(rows);
      var i :| 0 <= i < |rows| && rows[i] == row;
      assert clients[i] in clients;
    }
    forall c | c in clients ensures RowOf(now)(c) in r {
      var i :| 0 <= i < |clients| && clients[i] == c;
      assert rows[i] in multiset(rows);
    }
  }

  /** Clients never seen come first, then the most days since the last
      visit first; clients with the same number of days keep their order in
      the document. */
  lemma BuildListOrder(clients: seq<Client>, now: Time, days: int)
    ensures var r := BuildList(clients, now);
      && (forall i, j :: 0 <= i < j < |r| && r[j].daysSince.None? ==> r[i].daysSince.None?)
      && (forall i, j :: 0 <= i < j < |r| && r[i].daysSince.Some? && r[j].daysSince.Some? ==>
            r[i].daysSince.value >= r[j].daysSince.value)
      && WithRank(r, VisitRank, Score(days)) == WithRank(Map(clients, RowOf(now)), VisitRank, Score(days))
  {
    var r := BuildList(clients, now);
    assert SortedDesc(r, VisitRank);
    forall i, j | 0 <= i < j < |r| ensures RankAtLeast(VisitRank(r[i]), VisitRank(r[j])) {
    }
    SortStable(Map(clients, RowOf(now)), VisitRank, Score(days));
  }

  // ---------------------------------------------------------------------
  // Search
  // ---------------------------------------------------------------------

  /** The search filter: a blank term keeps every row; otherwise the
      lower-cased name, or a non-empty lower-cased phone, must contain the
      lower-cased term (which is not trimmed). */
  function Matches(term: string): VisitRow -> bool
  {
    (row: VisitRow) =>
      || IsBlank(term)
      || Contains(Lower(row.client.name), Lower(term))
      || (row.client.phone != "" && Contains(Lower(row.client.phone), Lower(term)))
  }

  function Search(rows: seq<VisitRow>, term: string): seq<VisitRow>
  {
    Filter(rows, Matches(term))
  }

  /** A blank term shows the whole list, and a row whose name has the term
      inside it, in any letter case, is always shown. */
  lemma SearchShows(rows: seq<VisitRow>, term: string, row: VisitRow, before: string, after: string)
    ensures IsBlank(term) ==> Search(rows, term) == rows
    ensures row in rows && Lower(row.client.name) == Lower(before + term + after) ==> row in Search(rows, term)
  {
    if IsBlank(term) {
      FilterAll(rows, Matches(term));
    }
    LowerAppend(before + term, after);
    LowerAppend(before, term);
    ContainsInfix(Lower(before), Lower(term), Lower(after));
  }

  /** Typing more characters never brings a row back: the rows shown for a
      longer term are among those shown for the shorter one. */
  lemma SearchNarrows(rows: seq<VisitRow>, term: string, more: string)
    ensures forall row :: row in Search(rows, term + more) ==> row in Search(rows, term)
  {
    LowerAppend(term, more);
    forall row | row in Search(rows, term + more) ensures row in Search(rows, term) {
      if !IsBlank(term) {
        BlankPrefix(term, more);
        var name, phone := Lower(row.client.name), Lower(row.client.phone);
        if Contains(name, Lower(term + more)) {
          ContainsPrefix(name, Lower(term), Lower(more));
        } else {
          ContainsPrefix(phone, Lower(term), Lower(more));
        }
      }
    }
  }

  // ---------------------------------------------------------------------
  // getDaysBadgeColor
  // ---------------------------------------------------------------------

  datatype Badge = Red | Orange | Yellow | Green

  /** Red for a client never seen, orange from 30 days, yellow from 15,
      green below. */
  function BadgeOf(daysSince: Option<int>): Badge
  {
    if daysSince.None? then Red
    else if daysSince.value >= 30 then Orange
    else if daysSince.value >= 15 then Yellow
    else Green
  }

  function Severity(b: Badge): nat
  {
    match b
    case Green => 0
    case Yellow => 1
    case Orange => 2
    case Red => 3
  }

  /** A longer absence never gets a milder badge, so the badges down the
      list never grow more urgent further down. */
  lemma BadgesFollowList(clients: seq<Client>, now: Time)
    ensures var r := BuildList(clients, now);
      forall i, j :: 0 <= i < j < |r| ==> Severity(BadgeOf(r[i].daysSince)) >= Severity(BadgeOf(r[j].daysSince))
  {
    var r := BuildList(clients, now);
    assert SortedDesc(r, VisitRank);
    forall i, j | 0 <= i < j < |r|
      ensures Severity(BadgeOf(r[i].daysSince)) >= Severity(BadgeOf(r[j].daysSince))
    {
      assert RankAtLeast(VisitRank(r[i]), VisitRank(r[j]));
      BadgeMonotone(r[i].daysSince, r[j].daysSince);
    }
  }

  /** A rank at least as high never gets a milder badge. */
  lemma BadgeMonotone(a: Option<int>, b: Option<int>)
    requires RankAtLeast(DaysSinceRank(a), DaysSinceRank(b))
    ensures Severity(BadgeOf(a)) >= Severity(BadgeOf(b))
  {
  }

  /** A client's badge is anything but green exactly when the Dashboard
      lists that client as inactive. */
  lemma BadgeAgreesWithDashboard(c: Client, now: Time)
    ensures BadgeOf(RowOf(now)(c).daysSince) != Green <==> DashboardPage.IsInactive(now)(c)
  {
  }
}
