/**
 * Resource units (types/resource.go, types/resourcevalue.go).
 * A nil pointer to a CPU, Memory or Storage is `None`; quantities are the
 * non-negative big integers the source keeps them to be.
 */
module ResourceTypes {
  import opened Wrappers

  datatype Attribute = Attribute(key: string, value: string)

  /** CPU, Memory and Storage all have this shape. */
  datatype Quantity = Quantity(value: nat, attributes: seq<Attribute>)

  datatype EndpointKind = SharedHTTP | RandomPort

  datatype ResourceUnits = ResourceUnits(
    cpu: Option<Quantity>,
    memory: Option<Quantity>,
    storage: Option<Quantity>,
    endpoints: seq<EndpointKind>)

  /** A resource together with the number of replicas asked for. */
  datatype Resources = Resources(units: ResourceUnits, count: nat)

  datatype Error = CannotSub | NegativeResult

  /** The three amounts the packer works with. */
  datatype Vec = Vec(cpu: nat, memory: nat, storage: nat)

  function Plus(a: Vec, b: Vec): Vec {
    Vec(a.cpu + b.cpu, a.memory + b.memory, a.storage + b.storage)
  }

  predicate Leq(a: Vec, b: Vec) {
    a.cpu <= b.cpu && a.memory <= b.memory && a.storage <= b.storage
  }

  function Minus(a: Vec, b: Vec): Vec
    requires Leq(b, a)
  {
    Vec(a.cpu - b.cpu, a.memory - b.memory, a.storage - b.storage)
  }

  function Scale(n: nat, a: Vec): Vec {
    Vec(n * a.cpu, n * a.memory, n * a.storage)
  }

  predicate Complete(u: ResourceUnits) {
    u.cpu.Some? && u.memory.Some? && u.storage.Some?
  }

  function Amount(u: ResourceUnits): Vec
    requires Complete(u)
  {
    Vec(u.cpu.value.value, u.memory.value.value, u.storage.value.value)
  }

  /** `ResourceValue.sub` lifted to a quantity: a negative result is an error. */
  function SubQuantity(m: Quantity, rhs: Quantity): Result<Quantity, Error> {
    if m.value < rhs.value then Failure(NegativeResult)
    else Success(m.(value := m.value - rhs.value))
  }

  /**
   * `ResourceUnits.Sub`. It dereferences all three amounts of the right-hand
   * side, so those must be present; a missing amount on the left is an error.
   */
  function Sub(m: ResourceUnits, rhs: ResourceUnits): (r: Result<ResourceUnits, Error>)
    requires Complete(rhs)
    ensures r.Success? <==> Complete(m) && Leq(Amount(rhs), Amount(m))
    ensures r.Success? ==>
              && Complete(r.value)
              && Plus(Amount(r.value), Amount(rhs)) == Amount(m)
              && r.value.endpoints == m.endpoints
              && r.value.cpu.value.attributes == m.cpu.value.attributes
              && r.value.memory.value.attributes == m.memory.value.attributes
              && r.value.storage.value.attributes == m.storage.value.attributes
  {
    if m.cpu.None? || m.memory.None? || m.storage.None? then Failure(CannotSub)
    else
      match SubQuantity(m.cpu.value, rhs.cpu.value)
      case Failure(e) => Failure(e)
      case Success(cpu) =>
        match SubQuantity(m.memory.value, rhs.memory.value)
        case Failure(e) => Failure(e)
        case Success(memory) =>
          match SubQuantity(m.storage.value, rhs.storage.value)
          case Failure(e) => Failure(e)
          case Success(storage) =>
            Success(ResourceUnits(Some(cpu), Some(memory), Some(storage), m.endpoints))
  }
}
