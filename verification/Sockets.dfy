/** Connections as the firmware sees them; the network itself is the environment. */
module Sockets {
  import opened Bytes

  /**
   * A client handle. `NoClient` is a handle that tests false. A held client may have lost its peer
   * (`connected` is false) while the handle still tests true, and may hold bytes not read yet.
   */
  datatype Client = NoClient | Client(id: nat, ip: nat, connected: bool, rx: seq<byte>)

  function Min(a: nat, b: nat): nat {
    if a < b then a else b
  }

  /** Received bytes join the unread ones; a handle that is gone receives nothing. */
  function Deliver(c: Client, data: seq<byte>): Client {
    if c.Client? then c.(rx := c.rx + data) else c
  }

  function LosePeer(c: Client): Client {
    if c.Client? then c.(connected := false) else c
  }

  /** Does a disconnect order from the web page hit this client? */
  predicate IsPeer(c: Client, ip: nat) {
    c.Client? && c.connected && c.ip == ip
  }
}
