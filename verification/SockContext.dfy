/** Socket endpoints as the BPF layer reports them (nfm-common/src/network.rs). */
module SockContextModel {
  const AF_INET: nat := 2
  const AF_INET6: nat := 10

  type Byte = b: int | 0 <= b < 256
  type Ipv6Bytes = s: seq<Byte> | |s| == 16 witness [0, 0, 0, 0, 0, 0, 0, 0, 0, 0, 0, 0, 0, 0, 0, 0]

  const UNSPECIFIED: Ipv6Bytes := [0, 0, 0, 0, 0, 0, 0, 0, 0, 0, 0, 0, 0, 0, 0, 0]

  datatype IpAddr = V4(bits: nat) | V6(octets: Ipv6Bytes)

  datatype SockContext = SockContext(
    localIpv4: nat, remoteIpv4: nat, localIpv6: Ipv6Bytes, remoteIpv6: Ipv6Bytes,
    localPort: nat, remotePort: nat, addressFamily: nat, isClient: bool)

  const NO_CONTEXT: SockContext :=
    SockContext(0, 0, UNSPECIFIED, UNSPECIFIED, 0, 0, 0, false)

  predicate IsValid(c: SockContext) {
    c.addressFamily == AF_INET || c.addressFamily == AF_INET6
  }

  /** What identifies one CPU core's entry for one socket. */
  datatype CpuSockKey = CpuSockKey(cpu: nat, sock: nat)
}
