// The records that the ring and its index share: a server on the node list,
// and the virtual node that a tree node carries as its data.
module Servers {
  const NODE_STATE_IDLE := 1
  const NODE_STATE_RUN := 2

  // An unsigned int of the C program.
  const U_INT := 0x1_0000_0000
  type UInt = x: int | 0 <= x < 0x1_0000_0000

  // A server of the ring, an element of a singly linked list.
  class Server {
    const ip: UInt
    const replicas: UInt
    var state: int
    var next: Server?

    constructor (ip: UInt, replicas: UInt)
      ensures this.ip == ip && this.replicas == replicas
      ensures state == 1 && next == null
    {
      this.ip := ip;
      this.replicas := replicas;
      this.state := NODE_STATE_IDLE;
      this.next := null;
    }
  }

  // One point of a server on the ring.
  datatype VNode = VNode(hash: int, node: Server?)
}
