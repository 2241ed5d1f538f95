/** The canonical resource address shared by the request parser, the KV store and rotation. */
module Endpoints {
  import opened Prelude
  import opened Text

  datatype EndpointKind = Data | Metadata | List | Delete | Undelete | Destroy

  datatype Resource = Resource(mount: Bytes, segments: seq<Bytes>)

  datatype Endpoint = Endpoint(kind: EndpointKind, resource: Resource, version: Option<u64>)

  /** `secret` */
  const SECRET_MOUNT: Bytes := [0x73, 0x65, 0x63, 0x72, 0x65, 0x74]

  /** `sys` */
  const MANAGEMENT_MOUNT: Bytes := [0x73, 0x79, 0x73]

  /** The key under which the KV store files an address. */
  function LogicalPath(resource: Resource): Bytes {
    Join(resource.segments, SLASH)
  }
}
