/** The inbox of booking requests (src/pages/Inbox.jsx): the tabs, the
    newest-first order, the per-tab counts, the request shown in the detail
    pane, the status changes each request offers, and the two writes the
    page makes (stamping lastSeenRequestAt on open, changing a status). */
module InboxPage {
  import opened Base
  import opened Schema
  import opened Db

  /** The filter tabs: 'active', 'done', 'dismissed' and 'all'. */
  datatype Tab = ActiveTab | DoneTab | DismissedTab | AllTab

  /** Whether a request belongs under a tab. */
  function InTab(tab: Tab): SchedulingRequest -> bool
  {
    (r: SchedulingRequest) =>
      match tab
      case ActiveTab => r.status == Pending || r.status == Seen
      case DoneTab => r.status == Done
      case DismissedTab => r.status == Dismissed
      case AllTab => true
  }

  function CreatedRank(r: SchedulingRequest): Rank
  {
    Score(r.createdAt)
  }

  /** filteredRequests: the requests of the tab, newest first. */
  function Visible(reqs: seq<SchedulingRequest>, tab: Tab): seq<SchedulingRequest>
  {
    SortDesc(Filter(reqs, InTab(tab)), CreatedRank)
  }

  /** Each tab shows exactly the requests with its statuses, each as often
      as it is stored. */
  lemma VisibleMembers(reqs: seq<SchedulingRequest>, tab: Tab)
    ensures var v := Visible(reqs, tab);
      && multiset(v) == multiset(Filter(reqs, InTab(tab)))
      && |v| == Count(reqs, InTab(tab))
      && (forall r :: r in v <==> r in reqs && match tab
            case ActiveTab => r.status == Pending || r.status == Seen
            case DoneTab => r.status == Done
            case DismissedTab => r.status == Dismissed
            case AllTab => true)
  {
    var v := Visible(reqs, tab);
    var f := Filter(reqs, InTab(tab));
    forall r ensures r in v <==> r in f {
      assert r in v <==> r in multiset(v);
      assert r in f <==> r in multiset(f);
    }
  }

  /** Newest first; requests created at the same instant keep their stored
      order. */
  lemma VisibleOrder(reqs: seq<SchedulingRequest>, tab: Tab, at: Time)
    ensures var v := Visible(reqs, tab);
      && (forall i, j :: 0 <= i < j < |v| ==> v[i].createdAt >= v[j].createdAt)
      && WithRank(v, CreatedRank, Score(at)) == WithRank(Filter(reqs, InTab(tab)), CreatedRank, Score(at))
  {
    var v := Visible(reqs, tab);
    assert SortedDesc(v, CreatedRank);
    forall i, j | 0 <= i < j < |v| ensures v[i].createdAt >= v[j].createdAt {
      assert RankAtLeast(CreatedRank(v[i]), CreatedRank(v[j]));
    }
    SortStable(Filter(reqs, InTab(tab)), CreatedRank, Score(at));
  }

  /** The 'all' tab shows every stored request. */
  lemma AllTabShowsAll(reqs: seq<SchedulingRequest>)
    ensures multiset(Visible(reqs, AllTab)) == multiset(reqs)
  {
    FilterAll(reqs, InTab(AllTab));
  }

  // ---------------------------------------------------------------------
  // Counts
  // ---------------------------------------------------------------------

  /** One of the four statuses REQUEST_STATUS defines. */
  function IsKnown(r: SchedulingRequest): bool
  {
    !r.status.Other?
  }

  /** activeCount, doneCount and dismissedCount split the requests with a
      known status between them; a request with any other status is
      counted nowhere. */
  lemma {:induction false} TabCountsPartition(reqs: seq<SchedulingRequest>)
    ensures Count(reqs, InTab(ActiveTab)) + Count(reqs, InTab(DoneTab)) + Count(reqs, InTab(DismissedTab))
         == Count(reqs, IsKnown)
    ensures Count(reqs, IsKnown) <= |reqs|
  {
    if reqs != [] {
      TabCountsPartition(reqs[1..]);
    }
  }

  /** A status change moves the changed request from the count of its old
      tab to the count of its new one and leaves every other request where
      it was. */
  lemma TabCountAfterChange(reqs: seq<SchedulingRequest>, id: Id, status: Status, now: Time, tab: Tab)
    requires exists q :: q in reqs && q.id == id
    ensures var k := FindIndex(reqs, HasRequestId(id));
      var q := reqs[k];
      Count(StatusUpdated(reqs, id, status, now), InTab(tab))
        == Count(reqs, InTab(tab))
           - (if InTab(tab)(q) then 1 else 0)
           + (if InTab(tab)(q.(status := status)) then 1 else 0)
  {
    var k := FindIndex(reqs, HasRequestId(id));
    var q :| q in reqs && q.id == id;
    assert HasRequestId(id)(q);
    CountUpdate(reqs, k, reqs[k].(status := status, updatedAt := now), InTab(tab));
  }

  // ---------------------------------------------------------------------
  // The detail pane
  // ---------------------------------------------------------------------

  function HasId(id: Id): SchedulingRequest -> bool
  {
    (r: SchedulingRequest) => r.id == id
  }

  /** selectedRequest: the request with the selected id if the list shows
      it, else the first one shown, else none. No id is selected at first
      (None), and no request matches then. */
  function Selected(shown: seq<SchedulingRequest>, selectedId: Option<Id>): (r: Option<SchedulingRequest>)
    ensures r.None? <==> shown == []
    ensures r.Some? ==> r.value in shown
    ensures selectedId.Some? && (exists q :: q in shown && q.id == selectedId.value) ==> r.value.id == selectedId.value
    ensures (selectedId.None? || forall q :: q in shown ==> q.id != selectedId.value) && shown != [] ==> r == Some(shown[0])
  {
    var hit := if selectedId.Some? then Find(shown, HasId(selectedId.value)) else None;
    if hit.Some? then hit
    else if shown == [] then None
    else Some(shown[0])
  }

  // ---------------------------------------------------------------------
  // Status actions
  // ---------------------------------------------------------------------

  /** The status changes RequestDetail and RequestCard offer: a pending
      request can be marked seen, done or dismissed; a seen one done or
      dismissed; a done or dismissed one reactivated. */
  function Actions(s: Status): set<Status>
  {
    match s
    case Pending => {Seen, Done, Dismissed}
    case Seen => {Done, Dismissed}
    case Done => {Pending}
    case Dismissed => {Pending}
    case Other(_) => {}
  }

  /** "Registrar Atendimento" is offered for pending and seen requests. */
  function CanRegister(s: Status): bool
  {
    s == Pending || s == Seen
  }

  /** No action keeps the status, only a stored status outside the four
      offers nothing, a seen request can never be marked pending again
      except by finishing or dismissing it first, and every action except
      marking seen moves the request between the active tab and the
      done/dismissed tabs. Registering is offered exactly on the active
      tab. */
  lemma ActionsFacts(s: Status, t: Status)
    ensures s !in Actions(s)
    ensures Actions(s) == {} <==> s.Other?
    ensures Pending !in Actions(Seen)
    ensures t in Actions(s) ==> !t.Other?
    ensures t in Actions(s) && t != Seen ==>
      (CanRegister(s) <==> !CanRegister(t))
    ensures CanRegister(s) <==> InTab(ActiveTab)(SchedulingRequest("", "", "", "", "", None, None, "", s, 0, 0))
  {
    if s.Other? {
      assert Actions(s) == {};
    } else {
      assert match s
        case Pending => Seen in Actions(s)
        case Seen => Done in Actions(s)
        case _ => Pending in Actions(s);
    }
  }

  /** Following the offered actions, any request with a known status can
      come back to PENDING and can reach DONE. */
  lemma ActionsReach(s: Status)
    requires !s.Other?
    ensures s == Pending || Pending in Actions(s) || exists u :: u in Actions(s) && Pending in Actions(u)
    ensures s == Done || Done in Actions(s) || exists u :: u in Actions(s) && Done in Actions(u)
  {
    if s == Seen {
      assert Done in Actions(s) && Pending in Actions(Done);
    } else if s == Dismissed {
      assert Pending in Actions(s) && Done in Actions(Pending);
    }
  }

  // ---------------------------------------------------------------------
  // Writes
  // ---------------------------------------------------------------------

  /** The effect run when the inbox opens: it reads the requests, then
      stamps lastSeenRequestAt with now. */
  method Open(db: Document, now: Time) returns (requests: seq<SchedulingRequest>)
    requires db.schedulingRequests.Some?
    modifies db
    ensures requests == old(db.schedulingRequests.value)
    ensures db.State() == old(db.State()).(ui := UiRecord(SeenAt(now)))
  {
    requests := db.schedulingRequests.value;
    db.UpdateLastSeenRequestAt(now);
  }

  /** After the inbox is opened, no request created up to that moment
      counts as new. */
  lemma OpenClearsNew(reqs: seq<SchedulingRequest>, now: Time)
    requires forall r :: r in reqs ==> r.createdAt <= now
    ensures CountNewRequests(reqs, UiRecord(SeenAt(now))) == 0
  {
  }

  /** handleStatusChange: changes the status through updateRequestStatus
      and shows the updated list. */
  method ChangeStatus(db: Document, id: Id, status: Status, now: Time) returns (requests: seq<SchedulingRequest>)
    requires db.schedulingRequests.Some?
    modifies db
    ensures requests == StatusUpdated(old(db.schedulingRequests.value), id, status, now)
    ensures db.State() == old(db.State()).(schedulingRequests := Some(requests))
  {
    var _ := db.UpdateRequestStatus(id, status, now);
    requests := db.schedulingRequests.value;
  }
}
