/** The record types shared by the tracker's components. */
module Records {
  import opened Text

  /** `left` and the transfer counters are 64-bit in the source, `port` is 32-bit. */
  datatype PeerInfo = PeerInfo(infoHash: bytes, peerId: bytes, ip: bytes, port: int,
                               uploaded: int, downloaded: int, left: int, event: bytes)

  const INT_MIN := -0x8000_0000

  const INT_MAX := 0x7fff_ffff

  const LONG_MIN := -0x8000_0000_0000_0000

  const LONG_MAX := 0x7fff_ffff_ffff_ffff

  /** Its address and event can be part of a statement: statements are handed over as C strings. */
  predicate Storable(peer: PeerInfo) {
    NUL !in peer.ip && NUL !in peer.event
  }

  /** The columns of a torrent row that replies report. */
  datatype Stats = Stats(complete: int, incomplete: int, downloaded: int)
}
