/** Lease fencing: epochs, owners and expiry in `InMemoryLeaseStore`. */
module Lease {
  import opened Prelude

  type Time = int

  datatype Lease = Lease(epoch: nat, owner: string, expiresAt: Time) {
    predicate IsValid(now: Time) {
      now < expiresAt
    }
  }

  datatype Store = Store(current: Option<Lease>, epoch: nat) {

    /** Another owner's lease is still running. */
    predicate Blocks(owner: string, now: Time) {
      current.Some? && current.value.IsValid(now) && current.value.owner != owner
    }

    function Acquire(owner: string, ttl: nat, now: Time): Option<Lease> {
      if Blocks(owner, now) then None else Some(Lease(epoch + 1, owner, now + ttl))
    }

    function After(owner: string, ttl: nat, now: Time): Store {
      match Acquire(owner, ttl, now)
      case Some(lease) => Store(Some(lease), epoch + 1)
      case None => this
    }

    predicate Verify(e: nat, now: Time) {
      current.Some? && current.value.epoch == e && current.value.IsValid(now)
    }
  }

  class InMemoryLeaseStore {
    var currentLease: Option<Lease>
    var epoch: nat

    function View(): Store
      reads this
    {
      Store(currentLease, epoch)
    }

    constructor ()
      ensures View() == Store(None, 0)
    {
      currentLease, epoch := None, 0;
    }

    method Acquire(owner: string, ttl: nat, now: Time) returns (granted: Option<Lease>)
      modifies this
      ensures granted == old(View()).Acquire(owner, ttl, now) && View() == old(View()).After(owner, ttl, now)
    {
      if currentLease.Some? && currentLease.value.IsValid(now) && currentLease.value.owner != owner {
        return None;
      }
      epoch := epoch + 1;
      var lease := Lease(epoch, owner, now + ttl);
      currentLease := Some(lease);
      return Some(lease);
    }

    method Verify(e: nat, now: Time) returns (ok: bool)
      ensures ok == View().Verify(e, now)
    {
      ok := currentLease.Some? && currentLease.value.epoch == e && currentLease.value.IsValid(now);
    }
  }

  // ----- runs -----

  datatype Request = Request(owner: string, ttl: nat, now: Time)

  datatype Grant = Grant(lease: Lease, at: Time)

  function Run(requests: seq<Request>): Store {
    if requests == [] then Store(None, 0)
    else
      var r := requests[|requests| - 1];
      Run(requests[..|requests| - 1]).After(r.owner, r.ttl, r.now)
  }

  /** Every lease ever granted, in order. */
  function Grants(requests: seq<Request>): seq<Grant> {
    if requests == [] then []
    else
      var front, r := requests[..|requests| - 1], requests[|requests| - 1];
      Grants(front) +
      match Run(front).Acquire(r.owner, r.ttl, r.now) case Some(lease) => [Grant(lease, r.now)] case None => []
  }

  /** Epochs number the grants, the store holds the latest, and ownership moves only past an expired lease. */
  lemma {:induction false} GrantHistory(requests: seq<Request>)
    ensures var g := Grants(requests); var s := Run(requests);
            && s.epoch == |g|
            && s.current == (if g == [] then None else Some(g[|g| - 1].lease))
            && (forall i :: 0 <= i < |g| ==> g[i].lease.epoch == i + 1)
            && forall i :: 0 <= i < |g| - 1 ==>
                 g[i + 1].lease.owner == g[i].lease.owner || g[i].lease.expiresAt <= g[i + 1].at
  {
    if requests != [] {
      GrantHistory(requests[..|requests| - 1]);
    }
  }

  /** Exactly the latest granted epoch verifies, and only until it expires. */
  lemma OnlyLatestVerifies(requests: seq<Request>, e: nat, now: Time)
    ensures var g := Grants(requests);
            Run(requests).Verify(e, now) <==>
                g != [] && e == g[|g| - 1].lease.epoch == |g| && now < g[|g| - 1].lease.expiresAt
  {
    GrantHistory(requests);
  }

  lemma {:induction false} GrantsGrow(requests: seq<Request>, more: seq<Request>)
    ensures Grants(requests) <= Grants(requests + more)
  {
    if more == [] {
      assert requests + more == requests;
    } else {
      var all := requests + more;
      assert all[..|all| - 1] == requests + more[..|more| - 1];
      GrantsGrow(requests, more[..|more| - 1]);
    }
  }

  /** A granted epoch that has stopped verifying, by expiry or by being superseded, never verifies again. */
  lemma FencedForever(requests: seq<Request>, more: seq<Request>, e: nat, now: Time, later: Time)
    requires 1 <= e <= Run(requests).epoch && !Run(requests).Verify(e, now) && now <= later
    ensures !Run(requests + more).Verify(e, later)
  {
    GrantHistory(requests);
    GrantHistory(requests + more);
    GrantsGrow(requests, more);
    OnlyLatestVerifies(requests, e, now);
    OnlyLatestVerifies(requests + more, e, later);
  }

  ghost predicate Clock(requests: seq<Request>) {
    forall i, j :: 0 <= i < j < |requests| ==> requests[i].now <= requests[j].now
  }

  ghost predicate Timely(g: seq<Grant>, now: Time) {
    && (forall i :: 0 <= i < |g| ==> g[i].at <= now)
    && (forall i, j :: 0 <= i < j < |g| ==> g[i].at <= g[j].at)
  }

  lemma {:induction false} GrantTimes(requests: seq<Request>, now: Time)
    requires Clock(requests) && (requests == [] || requests[|requests| - 1].now <= now)
    ensures Timely(Grants(requests), now)
  {
    if requests != [] {
      var front, last := requests[..|requests| - 1], requests[|requests| - 1];
      GrantTimes(front, last.now);
    }
  }

  /** On a clock that does not run backwards, when a different owner is granted a lease, every earlier owner's
      latest lease has expired: no two owners ever hold a running latest lease at once. */
  lemma {:induction false} HandOver(requests: seq<Request>, i: nat, j: nat)
    requires Clock(requests) && i < j < |Grants(requests)|
    requires var g := Grants(requests);
             g[j].lease.owner != g[i].lease.owner && forall k :: i < k < j ==> g[k].lease.owner != g[i].lease.owner
    ensures Grants(requests)[i].lease.expiresAt <= Grants(requests)[j].at
  {
    var g := Grants(requests);
    GrantHistory(requests);
    GrantTimes(requests, requests[|requests| - 1].now);
    assert g[i + 1].lease.owner != g[i].lease.owner;
    assert g[i + 1].at <= g[j].at;
  }

  // ----- how long a lease runs -----

  /** The request that was granted last. */
  function LastGranted(requests: seq<Request>): Option<Request> {
    if requests == [] then None
    else
      var front := requests[..|requests| - 1];
      if |Grants(requests)| > |Grants(front)| then Some(requests[|requests| - 1]) else LastGranted(front)
  }

  /** The lease held is that of the last granted request: its owner, from its time for its ttl. */
  lemma {:induction false} LastGrantedHeld(requests: seq<Request>)
    ensures match LastGranted(requests)
            case None => Run(requests).current.None? && Grants(requests) == []
            case Some(r) =>
              && Run(requests).current == Some(Lease(|Grants(requests)|, r.owner, r.now + r.ttl))
              && Grants(requests) != [] && Grants(requests)[|Grants(requests)| - 1].at == r.now
  {
    GrantHistory(requests);
    if requests != [] {
      LastGrantedHeld(requests[..|requests| - 1]);
    }
  }

  /** A request is refused exactly when the last grant went to another owner and its time to live has not passed. So the
      owner itself may renew at any time. */
  lemma RefusedIff(requests: seq<Request>, r: Request)
    ensures |Grants(requests + [r])| == |Grants(requests)| <==>
              match LastGranted(requests) case None => false case Some(g) => g.owner != r.owner && r.now < g.now + g.ttl
    ensures |Grants(requests + [r])| == |Grants(requests)| || |Grants(requests + [r])| == |Grants(requests)| + 1
  {
    assert (requests + [r])[..|requests|] == requests;
    LastGrantedHeld(requests);
  }

  /** A granted lease verifies at every moment before its time to live has passed, and at none from then on, as long as
      no later request is granted. */
  lemma LeaseRuns(requests: seq<Request>, r: Request, more: seq<Request>, now: Time)
    requires |Grants(requests + [r])| == |Grants(requests)| + 1
    requires |Grants(requests + [r] + more)| == |Grants(requests + [r])|
    ensures Run(requests + [r] + more).Verify(|Grants(requests)| + 1, now) <==> now < r.now + r.ttl
  {
    assert (requests + [r])[..|requests|] == requests;
    LastGrantedHeld(requests + [r]);
    StillLast(requests + [r], more);
    LastGrantedHeld(requests + [r] + more);
  }

  lemma {:induction false} StillLast(requests: seq<Request>, more: seq<Request>)
    requires |Grants(requests + more)| == |Grants(requests)|
    ensures LastGranted(requests + more) == LastGranted(requests)
  {
    if more == [] {
      assert requests + more == requests;
    } else {
      var all, front := requests + more, more[..|more| - 1];
      assert all[..|all| - 1] == requests + front;
      GrantsGrow(requests, front);
      StillLast(requests, front);
    }
  }
}
