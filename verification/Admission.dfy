/** Bounded admission under a mutex: process-wide and per-tenant limits, with permits that release on drop. */
module Admission {
  import opened Prelude

  datatype AdmissionPolicy = AdmissionPolicy(globalInFlight: nat, perTenantInFlight: nat) {
    predicate Valid() {
      0 < perTenantInFlight <= globalInFlight
    }

    /** None when the policy is accepted, otherwise the first complaint. */
    function Validate(): (error: Option<AdmissionError>)
      ensures error.None? <==> Valid()
      ensures error == Some(InvalidPolicy("per_tenant_in_flight cannot exceed global_in_flight")) <==>
                perTenantInFlight > globalInFlight > 0
    {
      if globalInFlight == 0 then Some(InvalidPolicy("global_in_flight must be greater than zero"))
      else if perTenantInFlight == 0 then Some(InvalidPolicy("per_tenant_in_flight must be greater than zero"))
      else if perTenantInFlight > globalInFlight then
        Some(InvalidPolicy("per_tenant_in_flight cannot exceed global_in_flight"))
      else None
    }
  }

  datatype AdmissionError =
    | InvalidPolicy(message: string)
    | InvalidTenant
    | GlobalLimit(limit: nat)
    | TenantLimit(tenant: string, tenantLimit: nat)

  datatype Permit = Permit(tenant: string)

  /** The state under the mutex. */
  datatype State = State(policy: AdmissionPolicy, total: nat, counts: map<string, nat>) {

    function CountOf(tenant: string): nat {
      if tenant in counts then counts[tenant] else 0
    }

    /** Why a tenant is refused, if it is. */
    function Refusal(tenant: string): Option<AdmissionError> {
      if !ValidIdentifier(tenant) then Some(InvalidTenant)
      else if total >= policy.globalInFlight then Some(GlobalLimit(policy.globalInFlight))
      else if CountOf(tenant) >= policy.perTenantInFlight then Some(TenantLimit(tenant, policy.perTenantInFlight))
      else None
    }

    function Admitted(tenant: string): State {
      this.(total := total + 1, counts := counts[tenant := CountOf(tenant) + 1])
    }

    /** Dropping a permit of the tenant. */
    function Released(tenant: string): State {
      if tenant !in counts || counts[tenant] == 0 || total == 0 then this
      else this.(total := total - 1,
                 counts := if counts[tenant] == 1 then counts - {tenant} else counts[tenant := counts[tenant] - 1])
    }
  }

  class AdmissionController {
    const policy: AdmissionPolicy
    var totalInFlight: nat
    var tenantInFlight: map<string, nat>
    /** The permits handed out and not yet dropped. */
    ghost var live: multiset<string>

    ghost function View(): State
      reads this
    {
      State(policy, totalInFlight, tenantInFlight)
    }

    /** The state with the permits it answers for. */
    ghost function Whole(): System
      reads this
    {
      System(View(), live)
    }

    ghost predicate Valid()
      reads this
    {
      Accounts(View(), live)
    }

    constructor (policy: AdmissionPolicy)
      requires policy.Valid()
      ensures Valid() && live == multiset{} && View() == State(policy, 0, map[])
    {
      this.policy := policy;
      totalInFlight, tenantInFlight, live := 0, map[], multiset{};
    }

    /** Creates an empty controller, unless the limits make no sense. */
    static method New(policy: AdmissionPolicy) returns (controller: AdmissionController?, error: Option<AdmissionError>)
      ensures error == policy.Validate() && (controller == null <==> error.Some?)
      ensures controller != null ==>
                fresh(controller) && controller.Valid() && controller.live == multiset{}
                && controller.View() == State(policy, 0, map[])
    {
      error := policy.Validate();
      if error.Some? {
        controller := null;
      } else {
        controller := new AdmissionController(policy);
      }
    }

    /** Admits or refuses in one critical section; a refusal changes nothing. */
    method Admit(tenant: string) returns (r: Result<Permit, AdmissionError>)
      requires Valid()
      modifies this
      ensures Valid()
      ensures match old(View()).Refusal(tenant)
              case Some(error) => r == Err(error) && View() == old(View()) && live == old(live)
              case None => r == Ok(Permit(tenant)) && live == old(live) + multiset{tenant}
      ensures Whole() == Step(old(Whole()), Op.Admit(tenant))
    {
      hide Accounts, ValidIdentifier;
      if !ValidIdentifier(tenant) {
        return Err(InvalidTenant);
      }
      if totalInFlight >= policy.globalInFlight {
        return Err(GlobalLimit(policy.globalInFlight));
      }
      var tenantCount := if tenant in tenantInFlight then tenantInFlight[tenant] else 0;
      if tenantCount >= policy.perTenantInFlight {
        return Err(TenantLimit(tenant, policy.perTenantInFlight));
      }
      AdmitAccounts(View(), live, tenant);
      totalInFlight := totalInFlight + 1;
      tenantInFlight := tenantInFlight[tenant := tenantCount + 1];
      live := live + multiset{tenant};
      return Ok(Permit(tenant));
    }

    /** A live permit goes away and gives its slot back. */
    method Drop(permit: Permit)
      requires Valid() && permit.tenant in live
      modifies this
      ensures Valid() && live == old(live) - multiset{permit.tenant}
      ensures Whole() == Step(old(Whole()), Op.Drop(permit.tenant))
    {
      ReleaseAccounts(View(), live, permit.tenant);
      if permit.tenant in tenantInFlight {
        var count := tenantInFlight[permit.tenant] - 1;
        tenantInFlight := tenantInFlight[permit.tenant := count];
        if count == 0 {
          tenantInFlight := tenantInFlight - {permit.tenant};
        }
        totalInFlight := totalInFlight - 1;
      }
      live := live - multiset{permit.tenant};
    }
  }

  // ----- accounting -----

  /** The books match the live permits, no tenant is stored with zero, and both limits hold. */
  ghost predicate Accounts(s: State, live: multiset<string>) {
    && s.policy.Valid()
    && s.total == |live| && s.total <= s.policy.globalInFlight
    && (forall t :: t in s.counts <==> t in live)
    && (forall t :: t in s.counts ==> s.counts[t] == live[t] && 0 < s.counts[t] <= s.policy.perTenantInFlight)
  }

  lemma AdmitAccounts(s: State, live: multiset<string>, tenant: string)
    requires Accounts(s, live) && s.Refusal(tenant).None?
    ensures Accounts(s.Admitted(tenant), live + multiset{tenant})
  {
  }

  lemma ReleaseAccounts(s: State, live: multiset<string>, tenant: string)
    requires Accounts(s, live) && tenant in live
    ensures Accounts(s.Released(tenant), live - multiset{tenant})
  {
    assert |live| == |live - multiset{tenant}| + 1;
  }

  function Sum(counts: map<string, nat>, tenants: seq<string>): nat {
    if tenants == [] then 0
    else Sum(counts, tenants[1..]) + if tenants[0] in counts then counts[tenants[0]] else 0
  }

  lemma {:induction false} SumOfPermits(counts: map<string, nat>, live: multiset<string>, tenants: seq<string>)
    requires forall i, j :: 0 <= i < j < |tenants| ==> tenants[i] != tenants[j]
    requires forall t :: t in live ==> t in tenants
    requires forall t :: t in tenants ==> t in counts && counts[t] == live[t]
    ensures Sum(counts, tenants) == |live|
  {
    if tenants == [] {
      assert live == multiset{};
    } else {
      var t := tenants[0];
      var rest := live[t := 0];
      assert tenants == [t] + tenants[1..];
      SumOfPermits(counts, rest, tenants[1..]);
      assert |live| == |rest| + live[t];
    }
  }

  // ----- every interleaving -----

  datatype Op = Admit(tenant: string) | Drop(tenant: string)

  datatype System = System(s: State, live: multiset<string>)

  /** One critical section; only a live permit can be dropped. */
  function Step(y: System, op: Op): System {
    match op
    case Admit(t) => if y.s.Refusal(t).Some? then y else System(y.s.Admitted(t), y.live + multiset{t})
    case Drop(t) => if t in y.live then System(y.s.Released(t), y.live - multiset{t}) else y
  }

  function Run(policy: AdmissionPolicy, ops: seq<Op>): System {
    if ops == [] then System(State(policy, 0, map[]), multiset{})
    else Step(Run(policy, ops[..|ops| - 1]), ops[|ops| - 1])
  }

  lemma {:induction false} RunAccounts(policy: AdmissionPolicy, ops: seq<Op>)
    requires policy.Valid()
    ensures Accounts(Run(policy, ops).s, Run(policy, ops).live) && Run(policy, ops).s.policy == policy
  {
    if ops != [] {
      var y := Run(policy, ops[..|ops| - 1]);
      RunAccounts(policy, ops[..|ops| - 1]);
      hide Accounts, State.Refusal;
      match ops[|ops| - 1] {
        case Admit(t) => if y.s.Refusal(t).None? { AdmitAccounts(y.s, y.live, t); }
        case Drop(t) => if t in y.live { ReleaseAccounts(y.s, y.live, t); }
      }
    }
  }

  /** In every run a tenant is refused for the first of these that applies, by the live permits: an invalid name,
      as many
      live permits as the global limit, as many of its own as the tenant limit; and admitted otherwise. */
  lemma RefusedIff(policy: AdmissionPolicy, ops: seq<Op>, tenant: string)
    requires policy.Valid()
    ensures var y := Run(policy, ops); var after := Run(policy, ops + [Op.Admit(tenant)]);
            && (y.s.Refusal(tenant) == Some(InvalidTenant) <==> !ValidIdentifier(tenant))
            && (y.s.Refusal(tenant) == Some(GlobalLimit(policy.globalInFlight)) <==>
                  ValidIdentifier(tenant) && |y.live| == policy.globalInFlight)
            && (y.s.Refusal(tenant) == Some(TenantLimit(tenant, policy.perTenantInFlight)) <==>
                  && ValidIdentifier(tenant) && |y.live| < policy.globalInFlight
                  && y.live[tenant] == policy.perTenantInFlight)
            && (y.s.Refusal(tenant).None? <==>
                  && ValidIdentifier(tenant) && |y.live| < policy.globalInFlight
                  && y.live[tenant] < policy.perTenantInFlight)
            && after.live == (if y.s.Refusal(tenant).None? then y.live + multiset{tenant} else y.live)
  {
    hide ValidIdentifier;
    RunAccounts(policy, ops);
    assert (ops + [Op.Admit(tenant)])[..|ops|] == ops;
    var y := Run(policy, ops);
    assert tenant !in y.live ==> y.live[tenant] == 0;
  }

  /** After any interleaving of admissions and drops the total is the number of live permits and the sum of the
      tenant counts, each count is the tenant's live permits and is positive, and both limits hold. */
  lemma BooksBalance(policy: AdmissionPolicy, ops: seq<Op>, tenants: seq<string>)
    requires policy.Valid()
    requires forall i, j :: 0 <= i < j < |tenants| ==> tenants[i] != tenants[j]
    requires forall t :: t in tenants <==> t in Run(policy, ops).s.counts
    ensures var y := Run(policy, ops);
            && y.s.total == |y.live| == Sum(y.s.counts, tenants) <= policy.globalInFlight
            && (forall t :: t in y.s.counts <==> t in y.live)
            && (forall t :: t in y.s.counts ==> 0 < y.s.counts[t] == y.live[t] <= policy.perTenantInFlight)
  {
    RunAccounts(policy, ops);
    hide Run;
    SumOfPermits(Run(policy, ops).s.counts, Run(policy, ops).live, tenants);
  }
}
