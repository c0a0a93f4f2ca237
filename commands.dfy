/** The commands that change the fleet: `start`, `stop`, `add` and `remove`,
    run against an in-memory stand-in for the provider. The stand-in records
    the calls it receives. Start and stop move the instance to whatever status
    the provider reports afterwards; registering and deregistering change the
    member set directly. */
module Commands {
  import opened Fleet
  import opened Membership

  datatype Action = StartAction | StopAction

  /** The one status each action may be issued from. */
  function Required(action: Action): Status
  {
    match action
    case StartAction => Stopped
    case StopAction => Running
  }

  /** The guard of `start` and `stop`: the call to issue, or the abort. */
  function Guard(inst: Instance, action: Action): (r: Result<Call>)
    ensures r.Ok? <==> inst.status == Required(action)
    ensures r.Ok? ==> r.value == match action
                                 case StartAction => StartInstance(inst.id)
                                 case StopAction => StopInstance(inst.id)
    ensures r.Err? ==> r.error == match action
                                  case StartAction => NotStopped
                                  case StopAction => NotRunning
  {
    if inst.status != Required(action) then
      Err(if action == StartAction then NotStopped else NotRunning)
    else if action == StartAction then Ok(StartInstance(inst.id))
    else Ok(StopInstance(inst.id))
  }

  /** No status lets both `start` and `stop` through, and pending, stopping,
      shutting-down, terminated and unknown states let neither through. */
  lemma GuardsAreExclusive(inst: Instance)
    ensures !(Guard(inst, StartAction).Ok? && Guard(inst, StopAction).Ok?)
    ensures inst.status !in {Stopped, Running} ==>
              Guard(inst, StartAction).Err? && Guard(inst, StopAction).Err?
  {
  }

  /** The calls a command sends: the one it produced, or none when it aborted. */
  function Sent(outcome: Result<Call>): (calls: seq<Call>)
    ensures |calls| <= 1
    ensures outcome.Ok? ==> calls == [outcome.value]
    ensures outcome.Err? ==> calls == []
  {
    if outcome.Ok? then [outcome.value] else []
  }

  class Cloud {
    var instances: seq<Instance>
    var balancers: map<string, Balancer>
    /** The mutations sent to the provider so far. */
    var issued: seq<Call>

    constructor(fleet: seq<Instance>, lbs: map<string, Balancer>)
      ensures instances == fleet && balancers == lbs && issued == []
    {
      instances := fleet;
      balancers := lbs;
      issued := [];
    }

    /** `start` and `stop`: resolve the name, check the status, send the call.
        The provider then moves the instance on its own; `reported` is the
        status it reports afterwards, and only that instance's status changes. */
    method Transition(name: string, action: Action, reported: Status) returns (outcome: Result<Call>)
      modifies this
      ensures balancers == old(balancers)
      ensures FindInstanceByName(old(instances), name).Err? ==> outcome == Err(NoInstance)
      ensures FindInstanceByName(old(instances), name).Ok? ==>
                outcome == Guard(FindInstanceByName(old(instances), name).value, action)
      ensures outcome.Err? ==> instances == old(instances)
      ensures outcome.Ok? ==>
                exists k: nat :: FirstTagged(old(instances), name, k) &&
                                 instances == old(instances)[k := old(instances)[k].(status := reported)]
      ensures issued == old(issued) + Sent(outcome)
    {
      var found := FindInstanceByName(instances, name);
      if found.Err? {
        return Err(found.error);
      }
      outcome := Guard(found.value, action);
      if outcome.Ok? {
        ghost var j :| 0 <= j < |instances| && instances[j] == found.value && TaggedAs(instances[j], name) &&
                        forall i :: 0 <= i < j ==> !TaggedAs(instances[i], name);
        assert FirstTagged(instances, name, j);
        var k :| 0 <= k < |instances| && FirstTagged(instances, name, k);
        instances := instances[k := instances[k].(status := reported)];
        issued := issued + [outcome.value];
      }
    }

    method Start(name: string, reported: Status) returns (outcome: Result<Call>)
      modifies this
      ensures balancers == old(balancers)
      ensures FindInstanceByName(old(instances), name).Err? ==> outcome == Err(NoInstance)
      ensures FindInstanceByName(old(instances), name).Ok? ==>
                var inst := FindInstanceByName(old(instances), name).value;
                if inst.status == Stopped then outcome == Ok(StartInstance(inst.id))
                else outcome == Err(NotStopped)
      ensures outcome.Err? ==> instances == old(instances)
      ensures outcome.Ok? ==>
                exists k: nat :: FirstTagged(old(instances), name, k) &&
                                 instances == old(instances)[k := old(instances)[k].(status := reported)]
      ensures issued == old(issued) + Sent(outcome)
    {
      outcome := Transition(name, StartAction, reported);
    }

    method Stop(name: string, reported: Status) returns (outcome: Result<Call>)
      modifies this
      ensures balancers == old(balancers)
      ensures FindInstanceByName(old(instances), name).Err? ==> outcome == Err(NoInstance)
      ensures FindInstanceByName(old(instances), name).Ok? ==>
                var inst := FindInstanceByName(old(instances), name).value;
                if inst.status == Running then outcome == Ok(StopInstance(inst.id))
                else outcome == Err(NotRunning)
      ensures outcome.Err? ==> instances == old(instances)
      ensures outcome.Ok? ==>
                exists k: nat :: FirstTagged(old(instances), name, k) &&
                                 instances == old(instances)[k := old(instances)[k].(status := reported)]
      ensures issued == old(issued) + Sent(outcome)
    {
      outcome := Transition(name, StopAction, reported);
    }

    /** `add`: resolve the instance, then the load balancer, then register. */
    method Add(name: string, elbName: string) returns (outcome: Result<Call>)
      modifies this
      ensures instances == old(instances)
      ensures FindInstanceByName(instances, name).Err? ==> outcome == Err(NoInstance)
      ensures FindInstanceByName(instances, name).Ok? && elbName !in old(balancers) ==>
                outcome == Err(NoLoadBalancer)
      ensures FindInstanceByName(instances, name).Ok? && elbName in old(balancers) ==>
                var id := FindInstanceByName(instances, name).value.id;
                var reg := Register(old(balancers)[elbName], id);
                (reg.Err? ==> outcome == Err(reg.error)) &&
                (reg.Ok? ==> outcome == Ok(RegisterInstance(elbName, id)) &&
                             balancers == old(balancers)[elbName := reg.value])
      ensures outcome.Err? ==> balancers == old(balancers)
      ensures issued == old(issued) + Sent(outcome)
    {
      var inst := FindInstanceByName(instances, name);
      if inst.Err? {
        return Err(inst.error);
      }
      var lb := FindLoadBalancerByName(balancers, elbName);
      if lb.Err? {
        return Err(lb.error);
      }
      var reg := Register(lb.value, inst.value.id);
      if reg.Err? {
        return Err(reg.error);
      }
      balancers := balancers[elbName := reg.value];
      outcome := Ok(RegisterInstance(elbName, inst.value.id));
      issued := issued + [outcome.value];
    }

    /** `remove`: resolve the instance, then the load balancer, then deregister. */
    method Remove(name: string, elbName: string) returns (outcome: Result<Call>)
      modifies this
      ensures instances == old(instances)
      ensures FindInstanceByName(instances, name).Err? ==> outcome == Err(NoInstance)
      ensures FindInstanceByName(instances, name).Ok? && elbName !in old(balancers) ==>
                outcome == Err(NoLoadBalancer)
      ensures FindInstanceByName(instances, name).Ok? && elbName in old(balancers) ==>
                var id := FindInstanceByName(instances, name).value.id;
                var dereg := Deregister(old(balancers)[elbName], id);
                (dereg.Err? ==> outcome == Err(dereg.error)) &&
                (dereg.Ok? ==> outcome == Ok(DeregisterInstance(elbName, id)) &&
                               balancers == old(balancers)[elbName := dereg.value])
      ensures outcome.Err? ==> balancers == old(balancers)
      ensures issued == old(issued) + Sent(outcome)
    {
      var inst := FindInstanceByName(instances, name);
      if inst.Err? {
        return Err(inst.error);
      }
      var lb := FindLoadBalancerByName(balancers, elbName);
      if lb.Err? {
        return Err(lb.error);
      }
      var dereg := Deregister(lb.value, inst.value.id);
      if dereg.Err? {
        return Err(dereg.error);
      }
      balancers := balancers[elbName := dereg.value];
      outcome := Ok(DeregisterInstance(elbName, inst.value.id));
      issued := issued + [outcome.value];
    }

    /** Running the same `add` twice: if the first one registers, the second aborts
        and changes nothing. */
    method AddTwice(name: string, elbName: string) returns (first: Result<Call>, second: Result<Call>)
      modifies this
      ensures instances == old(instances)
      ensures first.Err? ==> balancers == old(balancers)
      ensures first.Ok? ==>
                FindInstanceByName(instances, name).Ok? && elbName in old(balancers) &&
                Register(old(balancers)[elbName], FindInstanceByName(instances, name).value.id).Ok?
      ensures first.Ok? ==> balancers == old(balancers)[elbName :=
                Register(old(balancers)[elbName], FindInstanceByName(instances, name).value.id).value]
      ensures first.Ok? ==> second == Err(AlreadyRegistered)
      ensures issued == old(issued) + Sent(first)
    {
      first := Add(name, elbName);
      if first.Ok? {
        RegisterTwiceAborts(old(balancers)[elbName], FindInstanceByName(instances, name).value.id);
      }
      second := Add(name, elbName);
    }

    /** Running the same `remove` twice: if the first one deregisters, the second
        aborts and changes nothing. */
    method RemoveTwice(name: string, elbName: string) returns (first: Result<Call>, second: Result<Call>)
      modifies this
      ensures instances == old(instances)
      ensures first.Err? ==> balancers == old(balancers)
      ensures first.Ok? ==>
                FindInstanceByName(instances, name).Ok? && elbName in old(balancers) &&
                Deregister(old(balancers)[elbName], FindInstanceByName(instances, name).value.id).Ok?
      ensures first.Ok? ==> balancers == old(balancers)[elbName :=
                Deregister(old(balancers)[elbName], FindInstanceByName(instances, name).value.id).value]
      ensures first.Ok? ==> second == Err(NotRegistered)
      ensures issued == old(issued) + Sent(first)
    {
      first := Remove(name, elbName);
      if first.Ok? {
        DeregisterTwiceAborts(old(balancers)[elbName], FindInstanceByName(instances, name).value.id);
      }
      second := Remove(name, elbName);
    }
  }

  /** Two instances, web-1 running and web-2 stopped: stopping web-1 sends
      the stop call and leaves it stopping; stopping web-1 again and stopping
      web-2 both abort without sending anything. */
  method StopScenario() returns (first: Result<Call>, again: Result<Call>, other: Result<Call>, sent: seq<Call>)
    ensures first == Ok(StopInstance("i-1"))
    ensures again == Err(NotRunning)
    ensures other == Err(NotRunning)
    ensures sent == [StopInstance("i-1")]
  {
    var web1 := Instance("i-1", map["Name" := "web-1"], "t2.micro", Some("10.0.0.1"), None, Running);
    var web2 := Instance("i-2", map["Name" := "web-2"], "t2.micro", Some("10.0.0.2"), None, Stopped);
    var cloud := new Cloud([web1, web2], map[]);
    FirstTaggedResolves([web1, web2], "web-1", 0);
    first := cloud.Stop("web-1", Stopping);
    var stopping := web1.(status := Stopping);
    ghost var k: nat :| FirstTagged([web1, web2], "web-1", k) &&
                        cloud.instances == [web1, web2][k := [web1, web2][k].(status := Stopping)];
    FirstTaggedUnique([web1, web2], "web-1", k, 0);
    assert cloud.instances == [stopping, web2];
    FirstTaggedResolves([stopping, web2], "web-1", 0);
    FirstTaggedResolves([stopping, web2], "web-2", 1);
    again := cloud.Stop("web-1", Stopped);
    other := cloud.Stop("web-2", Stopped);
    sent := cloud.issued;
  }
}
