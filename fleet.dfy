/** The fleet as the CLI sees it on one invocation: instances, load balancers,
    their health feeds, and the two name lookups every command starts from. */
module Fleet {

  datatype Option<+T> = None | Some(value: T)

  /** Why a command stops. The first six are the source's `abort` calls;
      NilRows is a `list` whose limit made the row slice nil. */
  datatype Failure =
    | NoInstance          // "No instance found!"
    | NoLoadBalancer      // "No load balancer found!"
    | NotStopped          // "Instance is not stopped!"
    | NotRunning          // "Instance is not running!"
    | AlreadyRegistered   // "Instance is already registered to the load balancer!"
    | NotRegistered       // "Instance is not registered to the load balancer!"
    | NilRows

  datatype Result<+T> = Ok(value: T) | Err(error: Failure)

  /** The message `abort` prints for each failure. */
  function AbortMessage(f: Failure): string
    requires !f.NilRows?
  {
    match f
    case NoInstance => "No instance found!"
    case NoLoadBalancer => "No load balancer found!"
    case NotStopped => "Instance is not stopped!"
    case NotRunning => "Instance is not running!"
    case AlreadyRegistered => "Instance is already registered to the load balancer!"
    case NotRegistered => "Instance is not registered to the load balancer!"
  }

  /** The six abort messages are pairwise different, so the message tells
      which check stopped the command. */
  lemma AbortMessagesDistinct(f: Failure, g: Failure)
    requires !f.NilRows? && !g.NilRows? && f != g
    ensures AbortMessage(f) != AbortMessage(g)
  {
  }

  /** EC2 instance states. Other stands for a state name the provider may add;
      it never carries one of the six names below, which have constructors of
      their own (see StatusName). */
  datatype Status =
    | Pending | Running | Stopping | Stopped | ShuttingDown | Terminated
    | Other(text: string)

  /** `status.to_s` */
  function StatusName(s: Status): string
  {
    match s
    case Pending => "pending"
    case Running => "running"
    case Stopping => "stopping"
    case Stopped => "stopped"
    case ShuttingDown => "shutting_down"
    case Terminated => "terminated"
    case Other(text) => text
  }

  datatype Instance = Instance(
    id: string,
    tags: map<string, string>,
    instanceType: string,
    privateIp: Option<string>,
    publicIp: Option<string>,
    status: Status)

  /** A health-feed entry: the instance it refers to (its id and its Name tag,
      nil when the tag is missing), the provider's description and state label. */
  datatype HealthEntry = HealthEntry(
    instanceId: string,
    nameTag: Option<string>,
    description: string,
    state: string)

  /** A load balancer: the ids of its registered instances and its health feed. */
  datatype Balancer = Balancer(members: set<string>, health: seq<HealthEntry>)

  /** A mutation issued to the provider. */
  datatype Call =
    | StartInstance(instanceId: string)
    | StopInstance(instanceId: string)
    | RegisterInstance(balancer: string, instanceId: string)
    | DeregisterInstance(balancer: string, instanceId: string)

  /** The `with_tag("Name", name)` filter: the Name tag exists and equals `name`. */
  predicate TaggedAs(inst: Instance, name: string): (b: bool)
    ensures "Name" !in inst.tags ==> !b
    ensures "Name" in inst.tags ==> (b <==> inst.tags["Name"] == name)
  {
    "Name" in inst.tags && inst.tags["Name"] == name
  }

  /** `ec2.instances.with_tag("Name", name).first`, aborting when it is nil:
      the first instance in fleet order whose Name tag is `name`. */
  function FindInstanceByName(fleet: seq<Instance>, name: string): (r: Result<Instance>)
    ensures r.Err? <==> forall i :: 0 <= i < |fleet| ==> !TaggedAs(fleet[i], name)
    ensures r.Err? ==> r.error == NoInstance
    ensures r.Ok? ==> exists k :: 0 <= k < |fleet| && fleet[k] == r.value && TaggedAs(fleet[k], name) &&
                                 forall j :: 0 <= j < k ==> !TaggedAs(fleet[j], name)
  {
    if |fleet| == 0 then Err(NoInstance)
    else if TaggedAs(fleet[0], name) then Ok(fleet[0])
    else
      var r := FindInstanceByName(fleet[1..], name);
      assert r.Ok? ==> exists k :: 0 <= k < |fleet| - 1 && fleet[1..][k] == r.value && TaggedAs(fleet[1..][k], name) &&
                                   forall j :: 0 <= j < k ==> !TaggedAs(fleet[1..][j], name);
      r
  }

  /** Resolution picks the earliest tagged instance. When the name is carried
      by several instances this is not an error: the later ones are ignored. */
  lemma FirstTaggedResolves(fleet: seq<Instance>, name: string, k: nat)
    requires k < |fleet| && TaggedAs(fleet[k], name)
    requires forall j :: 0 <= j < k ==> !TaggedAs(fleet[j], name)
    ensures FindInstanceByName(fleet, name) == Ok(fleet[k])
  {
  }

  /** Index `k` holds the first instance whose Name tag is `name`. */
  predicate FirstTagged(fleet: seq<Instance>, name: string, k: nat)
  {
    k < |fleet| && TaggedAs(fleet[k], name) && forall j :: 0 <= j < k ==> !TaggedAs(fleet[j], name)
  }

  /** Only one index holds the first tagged instance. */
  lemma FirstTaggedUnique(fleet: seq<Instance>, name: string, k: nat, k': nat)
    requires FirstTagged(fleet, name, k) && FirstTagged(fleet, name, k')
    ensures k == k'
  {
  }

  /** `elb.load_balancers[name]`, aborting when there is none. The SDK hands
      back a reference even for an unknown name, and the provider's own error
      comes later; NoLoadBalancer stands for that error as well. */
  function FindLoadBalancerByName(balancers: map<string, Balancer>, name: string): (r: Result<Balancer>)
    ensures r.Ok? <==> name in balancers
    ensures r.Ok? ==> r.value == balancers[name]
    ensures r.Err? ==> r.error == NoLoadBalancer
  {
    if name in balancers then Ok(balancers[name]) else Err(NoLoadBalancer)
  }
}
