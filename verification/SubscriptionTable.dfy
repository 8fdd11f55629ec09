/** The registry's table of live subscriptions: who owns them, what they follow, and how many there may be. */
module SubscriptionTable {
  import opened Wrappers
  import opened Decimal
  import opened SubscriptionProtocol

  const MAX_SUBSCRIBERS_PER_JOB := 16
  const MAX_PROCESS_SUBSCRIBERS := 512

  const MAIN_WINDOW := "main"

  /** `jobId` is absent for the catalog and for the feed of accepted jobs. */
  datatype Subscription = Subscription(owner: string, jobId: Option<string>, flow: Flow, commands: seq<Command>)

  type Subscriptions = map<string, Subscription>

  function SubscriptionId(n: nat): string {
    "subscription-" + ToDecimal(n)
  }

  lemma SubscriptionIdInjective(m: nat, n: nat)
    requires SubscriptionId(m) == SubscriptionId(n)
    ensures m == n
  {
    assert SubscriptionId(m)[13..] == ToDecimal(m) && SubscriptionId(n)[13..] == ToDecimal(n);
  }

  function TaskWindow(jobId: string): string {
    "task-" + jobId
  }

  function NewSubscription(owner: string, jobId: Option<string>): Subscription {
    Subscription(owner, jobId, Flow(None, false), [])
  }

  ghost predicate IssuedSubscription(issued: nat, id: string) {
    exists n :: 1 <= n <= issued && id == SubscriptionId(n)
  }

  ghost predicate OwnedProperly(subscription: Subscription, jobs: set<string>) {
    match subscription.jobId
    case None => subscription.owner == MAIN_WINDOW
    case Some(jobId) => jobId in jobs && subscription.owner == TaskWindow(jobId)
  }

  ghost predicate SubscriptionAt(subscriptions: Subscriptions, issued: nat, jobs: set<string>, id: string)
    requires id in subscriptions
  {
    IssuedSubscription(issued, id) && OwnedProperly(subscriptions[id], jobs)
  }

  ghost function Subscribers(subscriptions: Subscriptions, jobId: string): set<string> {
    set id | id in subscriptions && subscriptions[id].jobId == Some(jobId)
  }

  ghost predicate TableSound(subscriptions: Subscriptions, issued: nat, jobs: set<string>) {
    && issued <= U64_MAX && |subscriptions| <= MAX_PROCESS_SUBSCRIBERS
    && (forall id {:trigger SubscriptionAt(subscriptions, issued, jobs, id)} ::
          id in subscriptions ==> SubscriptionAt(subscriptions, issued, jobs, id))
    && (forall jobId {:trigger Subscribers(subscriptions, jobId)} ::
        |Subscribers(subscriptions, jobId)| <= MAX_SUBSCRIBERS_PER_JOB)
  }

  /** A new subscription never takes an id used before. */
  lemma NextIdIsFresh(subscriptions: Subscriptions, issued: nat, jobs: set<string>)
    requires TableSound(subscriptions, issued, jobs)
    ensures SubscriptionId(issued + 1) !in subscriptions
  {
    var id := SubscriptionId(issued + 1);
    if id in subscriptions {
      assert SubscriptionAt(subscriptions, issued, jobs, id);
      var n :| 1 <= n <= issued && id == SubscriptionId(n);
      SubscriptionIdInjective(n, issued + 1);
    }
  }

  lemma IssuedIsMonotone(m: nat, n: nat, id: string)
    requires m <= n && IssuedSubscription(m, id)
    ensures IssuedSubscription(n, id)
  {
  }

  lemma SubscribersAfterInsert(subscriptions: Subscriptions, id: string, subscription: Subscription, jobId: string)
    requires id !in subscriptions
    ensures |Subscribers(subscriptions[id := subscription], jobId)|
            == |Subscribers(subscriptions, jobId)| + if subscription.jobId == Some(jobId) then 1 else 0
  {
    var before, after := Subscribers(subscriptions, jobId), Subscribers(subscriptions[id := subscription], jobId);
    assert after == if subscription.jobId == Some(jobId) then before + {id} else before;
  }

  lemma RegisterKeepsTable(subscriptions: Subscriptions, issued: nat, jobs: set<string>, subscription: Subscription)
    requires TableSound(subscriptions, issued, jobs) && issued < U64_MAX && |subscriptions| < MAX_PROCESS_SUBSCRIBERS
    requires OwnedProperly(subscription, jobs)
    requires subscription.jobId.Some? ==>
        |Subscribers(subscriptions, subscription.jobId.value)| < MAX_SUBSCRIBERS_PER_JOB
    ensures SubscriptionId(issued + 1) !in subscriptions
    ensures TableSound(subscriptions[SubscriptionId(issued + 1) := subscription], issued + 1, jobs)
  {
    var id := SubscriptionId(issued + 1);
    NextIdIsFresh(subscriptions, issued, jobs);
    var after := subscriptions[id := subscription];
    SizeAfterUpdate(subscriptions, id, subscription);
    forall other | other in after ensures SubscriptionAt(after, issued + 1, jobs, other) {
      if other == id {
        assert IssuedSubscription(issued + 1, id);
      } else {
        assert SubscriptionAt(subscriptions, issued, jobs, other);
        IssuedIsMonotone(issued, issued + 1, other);
      }
    }
    forall jobId ensures |Subscribers(after, jobId)| <= MAX_SUBSCRIBERS_PER_JOB {
      SubscribersAfterInsert(subscriptions, id, subscription, jobId);
    }
  }

  /** Removing subscriptions keeps the table sound, and so does a change of the jobs that leaves the followed ones. */
  lemma ShrinkKeepsTable(
      subscriptions: Subscriptions, issued: nat, jobs: set<string>, after: Subscriptions, left: set<string>)
    requires TableSound(subscriptions, issued, jobs)
    requires forall id :: id in after ==> id in subscriptions && after[id] == subscriptions[id]
    requires forall id :: id in after && after[id].jobId.Some? && after[id].jobId.value in jobs ==>
        after[id].jobId.value in left
    ensures TableSound(after, issued, left)
  {
    SubmapSize(after, subscriptions);
    forall id | id in after ensures SubscriptionAt(after, issued, left, id) {
      assert SubscriptionAt(subscriptions, issued, jobs, id);
    }
    forall jobId ensures |Subscribers(after, jobId)| <= MAX_SUBSCRIBERS_PER_JOB {
      SubsetSize(Subscribers(after, jobId), Subscribers(subscriptions, jobId));
    }
  }

  /** Only the flow and the commands of one subscription change. */
  lemma FlowChangeKeepsTable(
      subscriptions: Subscriptions, issued: nat, jobs: set<string>, id: string, subscription: Subscription)
    requires TableSound(subscriptions, issued, jobs) && id in subscriptions
    requires subscription.owner == subscriptions[id].owner && subscription.jobId == subscriptions[id].jobId
    ensures TableSound(subscriptions[id := subscription], issued, jobs)
  {
    var after := subscriptions[id := subscription];
    SizeAfterUpdate(subscriptions, id, subscription);
    forall other | other in after ensures SubscriptionAt(after, issued, jobs, other) {
      assert SubscriptionAt(subscriptions, issued, jobs, other);
    }
    forall jobId ensures |Subscribers(after, jobId)| <= MAX_SUBSCRIBERS_PER_JOB {
      assert Subscribers(after, jobId) == Subscribers(subscriptions, jobId);
    }
  }

  // ---------------------------------------------------------------------------------------------
  // Removals that follow a job or a window
  // ---------------------------------------------------------------------------------------------

  /** What is left when the given jobs leave the registry. */
  function WithoutJobs(subscriptions: Subscriptions, gone: set<string>): Subscriptions {
    map id | id in subscriptions
        && !(subscriptions[id].jobId.Some? && subscriptions[id].jobId.value in gone) :: subscriptions[id]
  }

  /** Jobs that leave take their subscriptions along. */
  lemma LeavingKeepsTable(
      subscriptions: Subscriptions, issued: nat, jobs: set<string>, kept: set<string>, left: set<string>)
    requires TableSound(subscriptions, issued, jobs) && kept <= jobs && kept <= left
    ensures TableSound(WithoutJobs(subscriptions, jobs - kept), issued, left)
  {
    ShrinkKeepsTable(subscriptions, issued, jobs, WithoutJobs(subscriptions, jobs - kept), left);
  }

  lemma WithoutMoreJobs(subscriptions: Subscriptions, gone: set<string>, more: set<string>)
    ensures WithoutJobs(WithoutJobs(subscriptions, gone), more) == WithoutJobs(subscriptions, gone + more)
  {
  }

  function WithoutOwner(subscriptions: Subscriptions, owner: string): Subscriptions {
    map id | id in subscriptions && subscriptions[id].owner != owner :: subscriptions[id]
  }

  /** A loop over collected ids, each looked up again before it is removed. */
  method RemoveAll(subscriptions: Subscriptions, ids: set<string>) returns (left: Subscriptions)
    ensures left == subscriptions - ids
  {
    left := subscriptions;
    var rest := ids;
    while rest != {}
      invariant rest <= ids && left == subscriptions - (ids - rest)
      decreases |rest|
    {
      var id :| id in rest;
      if id in left {
        left := left - {id};
      }
      rest := rest - {id};
    }
  }
}
