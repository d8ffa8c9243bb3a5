/** The values shared by the mount manager, the repository and the reconciler. */
module MountTypes {

  datatype MountState = PendingMount | Mounting | Mounted | RetryWait | Failed | Unmounting

  /** The client selected by a mount configuration; `Unrecognized` makes `clientType` return an error. */
  datatype ClientType = Irodsfs | Davfs | Nfs | Unrecognized

  datatype MountConfig = MountConfig(path: string, client: ClientType, options: string)

  /** `everMounted` stands for a non-nil `MountedAt`. */
  datatype MountInfo = MountInfo(
    id: string, config: MountConfig, state: MountState, attempt: nat, everMounted: bool)

  datatype MountRecord = MountRecord(info: MountInfo, tombstone: bool)
}
