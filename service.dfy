/**
 * The advertised service record the device keeps (the `service` built by
 * `newService` in ble/device_tiny.go): its UUID, the service data bytes of
 * the advertisement, and its characteristics.
 */
module Services {
  import Uuid
  import Characteristics

  datatype Service = Service(uuid: Uuid.UUID, data: seq<bv8>, characteristics: seq<Characteristics.Characteristic>)
}
