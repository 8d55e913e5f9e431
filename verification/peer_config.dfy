/** How a peer is configured on a device. */
module PeerConfigs {
  import opened Wrappers
  import opened Wire
  import opened AllowedIps

  datatype PeerConfig = PeerConfig(publicKey: PublicKey, endpoint: Option<SocketAddr>, allowedIps: seq<IpNet>,
                                   keepalive: Option<nat>, relay: Option<PublicKey>)
}
