/** The guards of `add` and `remove`: an instance is registered with a load
    balancer only when it is not yet a member, and deregistered only when it is. */
module Membership {
  import opened Fleet

  /** `add`: abort when the instance is already a member, else add it. */
  function Register(lb: Balancer, id: string): (r: Result<Balancer>)
    ensures r.Err? <==> id in lb.members
    ensures r.Err? ==> r.error == AlreadyRegistered
    ensures r.Ok? ==> r.value.members == lb.members + {id} && r.value.health == lb.health
  {
    if id in lb.members then Err(AlreadyRegistered) else Ok(lb.(members := lb.members + {id}))
  }

  /** `remove`: abort when the instance is not a member, else remove it. */
  function Deregister(lb: Balancer, id: string): (r: Result<Balancer>)
    ensures r.Err? <==> id !in lb.members
    ensures r.Err? ==> r.error == NotRegistered
    ensures r.Ok? ==> r.value.members == lb.members - {id} && r.value.health == lb.health
  {
    if id !in lb.members then Err(NotRegistered) else Ok(lb.(members := lb.members - {id}))
  }

  /** A second identical `add` always aborts. */
  lemma RegisterTwiceAborts(lb: Balancer, id: string)
    requires Register(lb, id).Ok?
    ensures Register(Register(lb, id).value, id) == Err(AlreadyRegistered)
  {
  }

  /** A second identical `remove` always aborts. */
  lemma DeregisterTwiceAborts(lb: Balancer, id: string)
    requires Deregister(lb, id).Ok?
    ensures Deregister(Deregister(lb, id).value, id) == Err(NotRegistered)
  {
  }

  /** `remove` undoes a successful `add`. */
  lemma DeregisterUndoesRegister(lb: Balancer, id: string)
    requires Register(lb, id).Ok?
    ensures Deregister(Register(lb, id).value, id) == Ok(lb)
  {
  }

  /** `add` undoes a successful `remove`. */
  lemma RegisterUndoesDeregister(lb: Balancer, id: string)
    requires Deregister(lb, id).Ok?
    ensures Register(Deregister(lb, id).value, id) == Ok(lb)
  {
    assert lb.members - {id} + {id} == lb.members;
  }

  /** Exactly one of `add` and `remove` passes its guard. */
  lemma ExactlyOneGuardPasses(lb: Balancer, id: string)
    ensures Register(lb, id).Ok? != Deregister(lb, id).Ok?
  {
  }
}
