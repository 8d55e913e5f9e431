/** Bytes, keys and the sizes every packet on the wire has to respect. */
module Wire {
  type Byte = b: nat | b < 256

  /** A 32-byte static public key. */
  type PublicKey = k: seq<Byte> | |k| == 32 witness seq(32, _ => 0)

  /** Overhead of WireGuard encapsulation. */
  const PACKET_OVERHEAD: nat := 32
  /** Inner MTU of tunnelled IP packets. */
  const MTU: nat := 1280
  /** Header of a relay envelope. */
  const ENVELOPE_HEADER_SIZE: nat := 36
  /** Largest packet: a WireGuard packet in an envelope in a WireGuard packet. */
  const MAX_PACKET_SIZE: nat := MTU + 2 * PACKET_OVERHEAD + ENVELOPE_HEADER_SIZE

  /** Sessions neither send nor accept counters from here on: 2^64 - 2^16 - 2. */
  const REJECT_AFTER_MESSAGES: nat := 0xffff_ffff_fffe_fffe
}
