/** The instance record handed to callers of the listing. */
module Domain {

  /** The prefix that marks a hypervisor domain as managed by this system.
      It is stripped from listed names and put back before every call that
      names the domain. */
  const ReservedPrefix: string := "android"

  /** The closed lifecycle status of a managed instance. There is no
      "unknown" value: an unrecognised hypervisor state is an error. */
  datatype Status = Running | Stopped {

    /** The string constant the status is declared with. */
    function Text(): string {
      match this
      case Running => "running"
      case Stopped => "stopped"
    }
  }

  /** A parsed IP address (`netip.Addr`). Parsing address literals is not
      modelled; only equality of the parsed values matters here. */
  datatype Addr = V4(octets: seq<nat>) | V6(groups: seq<nat>, zone: string) {

    /** 127.0.0.0/8 or ::1. */
    predicate IsLoopback() {
      match this
      case V4(o) => |o| == 4 && o[0] == 127
      case V6(g, _) => |g| == 8 && g[..7] == [0, 0, 0, 0, 0, 0, 0] && g[7] == 1
    }
  }

  /** One managed virtual machine: its name without the reserved prefix, its
      addresses in discovery order, and its status. */
  datatype Instance = Instance(name: string, ips: seq<Addr>, status: Status)
}
