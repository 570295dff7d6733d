/** A GOOSE message: a frame together with the PDU it carries. */
module GooseMessage {
  import opened Wrappers
  import opened Bytes
  import opened GoosePdu
  import opened GooseFrame

  /** A received frame, decoded down to its PDU. */
  function Decoded(buf: seq<Byte>): Option<(Header, GoosePdu)> {
    match DecodeFrame(buf)
    case Err(_) => None
    case Ok(frame) =>
      match DecodePdu(frame.pdu)
      case Err(_) => None
      case Ok(pdu) => Some((frame.header, pdu))
  }
}
