/** src/error.rs and src/req_addr.rs: errors, request addresses and their byte parsers. */
module ReqAddrs {
  import opened Bytes

  /** The error values the handshake and the driver can return; descriptions are named, not spelled out. */
  datatype Error =
    | Io
    | NotSocks5(version: byte)
    | NoSupportedMethod
    | NotConnect
    | AddressFormat
    | Utf8Error
    | NotConnected
    | InvalidSocks5AddrType

  /** A Rust `Result`, with the third way a call can end: a panic. */
  datatype Result<+T> = Ok(value: T) | Err(error: Error) | Panicked

  type Octets = s: seq<byte> | |s| == 4 witness [0, 0, 0, 0]
  type Segments = s: seq<u16> | |s| == 8 witness [0, 0, 0, 0, 0, 0, 0, 0]

  datatype SocketAddr = V4(octets: Octets, port: u16) | V6(segments: Segments, port: u16)

  datatype ReqAddr = IP(addr: SocketAddr) | Domain(name: Utf8, domainPort: u16) {
    function Port(): u16 {
      match this
      case IP(a) => a.port
      case Domain(_, p) => p
    }
  }

  /** `ReqAddr::default()`: 127.0.0.1:0. */
  const DEFAULT_ADDR := IP(V4([127, 0, 0, 1], 0))

  /** As written: the port is taken from indices 3 and 4, not 4 and 5. */
  function ParseAddressV4(bytes: seq<byte>): Result<ReqAddr> {
    if |bytes| != 6 then Err(AddressFormat)
    else Ok(IP(V4(bytes[..4], Word(bytes[3], bytes[4]))))
  }

  function ParseAddressV6(bytes: seq<byte>): Result<ReqAddr> {
    if |bytes| != 18 then Err(AddressFormat)
    else
      var segments := [
        Word(bytes[0], bytes[1]), Word(bytes[2], bytes[3]), Word(bytes[4], bytes[5]), Word(bytes[6], bytes[7]),
        Word(bytes[8], bytes[9]), Word(bytes[10], bytes[11]), Word(bytes[12], bytes[13]), Word(bytes[14], bytes[15])];
      Ok(IP(V6(segments, Word(bytes[16], bytes[17]))))
  }

  /** Slicing or indexing past the end of `bytes` panics. */
  function ParseDomain(length: nat, bytes: seq<byte>): Result<ReqAddr> {
    if |bytes| < length then Panicked
    else if !ValidUtf8(bytes[..length]) then Err(Utf8Error)
    else if |bytes| < length + 2 then Panicked
    else Ok(Domain(bytes[..length], Word(bytes[length], bytes[length + 1])))
  }
}
