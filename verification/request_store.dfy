/**
 * The mentorship-request lifecycle of the data-access contract: a mentee's
 * request to a mentor is published, then either approved, which turns it
 * into a standing connection, or denied, which discards it.
 */
module RequestStore {
  /** A datastore key. */
  type Key = int

  /** A pending request from the mentee with key `menteeKey` to the mentor with key `mentorKey`. */
  datatype MentorshipRequest = MentorshipRequest(key: Key, mentorKey: Key, menteeKey: Key)

  /** A standing mentorship between a mentor and a mentee. */
  datatype Connection = Connection(mentorKey: Key, menteeKey: Key)

  /**
   * The part of the store the lifecycle touches. Connections form a
   * multiset: nothing keeps the same pair from being connected twice.
   */
  datatype Store = Store(pending: set<MentorshipRequest>, connections: multiset<Connection>)

  /** The connection an approved request turns into. */
  function ConnectionOf(r: MentorshipRequest): (c: Connection)
    ensures c.mentorKey == r.mentorKey && c.menteeKey == r.menteeKey
  {
    Connection(r.mentorKey, r.menteeKey)
  }

  /** `publishRequest`: `r` becomes pending; nothing else changes. */
  function PublishRequest(s: Store, r: MentorshipRequest): (t: Store)
    ensures r in t.pending
    ensures forall q :: q != r ==> (q in t.pending <==> q in s.pending)
    ensures t.connections == s.connections
  {
    s.(pending := s.pending + {r})
  }

  /** `deleteRequest`: `r` is no longer pending; nothing else changes. */
  function DeleteRequest(s: Store, r: MentorshipRequest): (t: Store)
    ensures r !in t.pending
    ensures forall q :: q != r ==> (q in t.pending <==> q in s.pending)
    ensures t.connections == s.connections
  {
    s.(pending := s.pending - {r})
  }

  /**
   * `makeConnection`: one more connection between the two users, even when
   * they are already connected; the pending requests do not change.
   */
  function MakeConnection(s: Store, mentorKey: Key, menteeKey: Key): (t: Store)
    ensures t.pending == s.pending
    ensures t.connections[Connection(mentorKey, menteeKey)] == s.connections[Connection(mentorKey, menteeKey)] + 1
    ensures forall c :: c != Connection(mentorKey, menteeKey) ==> t.connections[c] == s.connections[c]
    ensures |t.connections| == |s.connections| + 1
  {
    s.(connections := s.connections + multiset{Connection(mentorKey, menteeKey)})
  }

  /**
   * `approveRequest`: in one step, `r` stops being pending and its mentor
   * and mentee gain a connection.
   */
  function ApproveRequest(s: Store, r: MentorshipRequest): (t: Store)
    ensures r !in t.pending
    ensures forall q :: q != r ==> (q in t.pending <==> q in s.pending)
    ensures ConnectionOf(r) in t.connections
    ensures t.connections == s.connections + multiset{ConnectionOf(r)}
  {
    Store(s.pending - {r}, s.connections + multiset{ConnectionOf(r)})
  }

  /** `denyRequest`: the request is deleted, so it stops being pending and no connection is made. */
  function DenyRequest(s: Store, r: MentorshipRequest): (t: Store)
    ensures r !in t.pending
    ensures forall q :: q != r ==> (q in t.pending <==> q in s.pending)
    ensures t.connections == s.connections
  {
    DeleteRequest(s, r)
  }

  /** Approving is deleting the request and then connecting its two users. */
  lemma ApproveIsDeleteThenConnect(s: Store, r: MentorshipRequest)
    ensures ApproveRequest(s, r) == MakeConnection(DeleteRequest(s, r), r.mentorKey, r.menteeKey)
  {
  }

  /** Publishing a request that was not pending and then deleting it leaves the store as it was. */
  lemma DeleteUndoesPublish(s: Store, r: MentorshipRequest)
    requires r !in s.pending
    ensures DeleteRequest(PublishRequest(s, r), r) == s
  {
    assert (s.pending + {r}) - {r} == s.pending;
  }

  /** Approving and denying the same request leave the same requests pending. */
  lemma ApproveAndDenyAgreeOnPending(s: Store, r: MentorshipRequest)
    ensures ApproveRequest(s, r).pending == DenyRequest(s, r).pending
  {
  }

  /** One step of the lifecycle. */
  datatype Event =
    | Publish(request: MentorshipRequest)
    | Approve(request: MentorshipRequest)
    | Deny(request: MentorshipRequest)

  /**
   * The store after one event. Only an approval adds a connection, and a
   * request that is approved or denied ends up not pending.
   */
  function Step(s: Store, e: Event): (t: Store)
    ensures e.Approve? ==> t.connections == s.connections + multiset{ConnectionOf(e.request)}
    ensures !e.Approve? ==> t.connections == s.connections
    ensures e.Publish? ==> t.pending == s.pending + {e.request}
    ensures !e.Publish? ==> t.pending == s.pending - {e.request}
  {
    match e
    case Publish(r) => PublishRequest(s, r)
    case Approve(r) => ApproveRequest(s, r)
    case Deny(r) => DenyRequest(s, r)
  }

  /** The store after `events`, applied in order. */
  function Run(s: Store, events: seq<Event>): (t: Store)
    decreases |events|
  {
    if events == [] then s
    else Run(Step(s, events[0]), events[1..])
  }

  /** The connections the approvals among `events` create, one per approval. */
  function Approved(events: seq<Event>): (cs: multiset<Connection>)
    ensures |cs| <= |events|
    ensures forall c :: c in cs ==>
      exists i :: 0 <= i < |events| && events[i].Approve? && ConnectionOf(events[i].request) == c
    ensures (forall i :: 0 <= i < |events| ==> !events[i].Approve?) ==> cs == multiset{}
    decreases |events|
  {
    if events == [] then multiset{}
    else
      var rest := Approved(events[1..]);
      assert forall i :: 0 < i < |events| ==> events[1..][i - 1] == events[i];
      if events[0].Approve? then multiset{ConnectionOf(events[0].request)} + rest else rest
  }

  /**
   * Connections come only from approvals: after any run of the lifecycle the
   * store holds the connections it started with plus exactly one per
   * approval, whatever was published or denied on the way.
   */
  lemma {:induction false} ConnectionsComeFromApprovals(s: Store, events: seq<Event>)
    ensures Run(s, events).connections == s.connections + Approved(events)
    decreases |events|
  {
    if events != [] {
      var e := events[0];
      var next := Step(s, e);
      ConnectionsComeFromApprovals(next, events[1..]);
    }
  }

  /**
   * A request that is approved or denied is no longer pending, unless a
   * later event publishes it again.
   */
  lemma {:induction false} ResolvedRequestIsGone(s: Store, events: seq<Event>, i: nat)
    requires i < |events|
    requires events[i].Approve? || events[i].Deny?
    requires forall j :: i < j < |events| ==> events[j] != Publish(events[i].request)
    ensures events[i].request !in Run(s, events).pending
    decreases |events|
  {
    var e := events[0];
    var next := Step(s, e);
    if i == 0 {
      StaysGone(next, events[1..], e.request);
    } else {
      ResolvedRequestIsGone(next, events[1..], i - 1);
    }
  }

  /** A request that is not pending stays so while nobody publishes it. */
  lemma {:induction false} StaysGone(s: Store, events: seq<Event>, r: MentorshipRequest)
    requires r !in s.pending
    requires forall j :: 0 <= j < |events| ==> events[j] != Publish(r)
    ensures r !in Run(s, events).pending
    decreases |events|
  {
    if events != [] {
      var e := events[0];
      var next := Step(s, e);
      StaysGone(next, events[1..], r);
    }
  }
}
