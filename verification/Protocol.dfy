/** The wire records the hubs exchange (pkg/protocol), reduced to the fields the logic reads. */
module Protocol {
  import opened Ids

  type Int64 = x: int | -0x8000_0000_0000_0000 <= x <= 0x7fff_ffff_ffff_ffff

  datatype Option<+T> = None | Some(value: T)

  datatype HubAnnouncement = HubAnnouncement(
    HubID: Id,
    PublicURL: string,
    StorageCapacity: int,
    StorageArchive: bool,
    TimestampMS: int)

  datatype Status = Up | Down | Degraded

  datatype ResultContent = ResultContent(
    CheckID: string,
    ProbeID: string,
    TimestampMS: Int64,
    Status: Status,
    RTTMillis: real,
    CheckType: string,
    Target: string)

  datatype CheckSpec = CheckSpec(
    ID: string,
    Type: string,
    Target: string,
    IntervalSeconds: int,
    Params: map<string, string>)

  /** An owner-signed alert rule; ID is the hash of its owner, check, channel and destination. */
  datatype AlertRule = AlertRule(
    ID: string,
    CheckID: string,
    Recipients: map<Id, string>,
    FailLocations: int,
    ForSeconds: int,
    ExpiryMS: int,
    UpdatedMS: int,
    Deleted: bool)
}
