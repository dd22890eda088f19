/** What the shim's records share: the kind of transport, and text in fixed-size fields. */
module Fields {
  datatype TransportType = Udp | Tcp | Other

  const DEVICE_CAPACITY := 128
  const REALM_CAPACITY := 128
  const ADDRESS_CAPACITY := 64
  const CALL_ID_CAPACITY := 256

  /** Text that fits a NUL-terminated field. */
  predicate Storable(text: string, capacity: nat) {
    |text| < capacity && '\0' !in text
  }
}
