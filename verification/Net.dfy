/** Network addresses, as the bytes of a `sockaddr_in` in network order. */
module Net {
  import opened Bytes

  datatype Ip = Ip(a: byte, b: byte, c: byte, d: byte)
  datatype Addr = Addr(ip: Ip, port: (byte, byte))

  datatype Option<+T> = None | Some(value: T)

  const BUFFER_SIZE: nat := 65535
  const PREBUFFER_SIZE: nat := 1024
}
