/** The control plane's resources, as the scheduler and the store see them. */
module Domain {
  import opened Bytes
  import opened Text

  type Labels = map<string, string>
  type Selector = map<string, string>

  const TCP := "tcp"

  datatype Certificate = CertPending | CertActive | CertRevoked | CertExpired | CertDecommissioned

  datatype Lifecycle = Pending | Applied | Degraded | Draining

  datatype Binding = Binding(serviceID: string, protocol: string, bind: string, port: u16)

  // The policy stands for a gateway's obfuscation settings and key identities.
  datatype Assignment = Assignment(
    id: string, gatewayID: string, agentID: string, serviceIDs: seq<string>, bindings: seq<Binding>,
    generation: nat, state: Lifecycle, endpoint: string, policy: string)

  // A placement that has given up its listeners.
  predicate Relinquished(state: Lifecycle) { state == Degraded || state == Draining }

  datatype Service = Service(
    id: string, agentID: string, protocol: string, bind: string, port: u16, selector: Selector, content: string)

  datatype PortRange = PortRange(min: u16, max: u16)

  datatype PortPool = PortPool(tcp: seq<PortRange>, udp: seq<PortRange>) {
    function Ranges(protocol: string): seq<PortRange> {
      if protocol == TCP then tcp else udp
    }
  }

  datatype Listener = Listener(protocol: string, bind: string, port: u16)

  datatype GatewaySpec = GatewaySpec(
    endpoints: seq<string>, listeners: seq<Listener>, maxAgents: int, maxServices: int, pool: PortPool, policy: string)

  datatype AgentSpec = AgentSpec(nodeID: string, gatewayID: string, selector: Selector)

  datatype Spec = GatewayRole(gateway: GatewaySpec) | AgentRole(agent: AgentSpec)

  // The domain package's checks, which the model leaves open: address
  // normalisation, label matching and field validation.
  datatype Rules = Rules(
    canon: string -> string,
    matches: (Selector, Labels) -> bool,
    validID: string -> bool,
    validAgentSpec: AgentSpec -> bool,
    validGatewaySpec: GatewaySpec -> bool,
    validService: Service -> bool,
    validAssignment: Assignment -> bool)
  {
    ghost predicate Idempotent() {
      forall bind :: canon(canon(bind)) == canon(bind)
    }

    function Key(protocol: string, bind: string, port: u16): string {
      protocol + "|" + canon(bind) + "|" + Decimal(port)
    }

    function KeyOf(b: Binding): string { Key(b.protocol, b.bind, b.port) }

    function Normal(b: Binding): Binding { b.(bind := canon(b.bind)) }
  }

  predicate InRange(r: PortRange, port: int) { r.min <= port <= r.max }

  predicate InRanges(ranges: seq<PortRange>, port: int) {
    exists i :: 0 <= i < |ranges| && InRange(ranges[i], port)
  }

  // A protocol without ranges admits every port.
  predicate InPool(pool: PortPool, protocol: string, port: u16) {
    pool.Ranges(protocol) == [] || InRanges(pool.Ranges(protocol), port)
  }

  method PortInPool(pool: PortPool, protocol: string, port: u16) returns (ok: bool)
    ensures ok == InPool(pool, protocol, port)
  {
    var ranges := pool.Ranges(protocol);
    if |ranges| == 0 {
      return true;
    }
    for i := 0 to |ranges|
      invariant forall k :: 0 <= k < i ==> !InRange(ranges[k], port)
    {
      if port >= ranges[i].min && port <= ranges[i].max {
        return true;
      }
    }
    return false;
  }
}
